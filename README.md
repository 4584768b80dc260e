# Progbase.Canvas in Dafny

A model of the terminal pixel canvas `Progbase.Canvas` (Canvas.cs), with
proofs about it. The canvas keeps a `height × width` buffer of palette
indices of the xterm 256-colour palette. Configuration setters work only
between frames. The pen and the shape routines work only between
`BeginDraw` and `EndDraw`. `EndDraw` composites the buffer onto the console
two buffer rows per terminal row, using upper-half-block glyphs, and writes
a colour escape only when a slot's colour changes.

The model follows the source's own structure:

- `Base` holds the byte type and the exceptions. A throw becomes a
  returned `Outcome` or `Result` naming the .NET exception type.
- `ColorEncoder` (pure): `EncodeColor` and the hex-string parser used by
  `SetColor(string)`, with a hex formatter as the parser's partner.
- `Raster` (pure): for each shape routine, the sequence of positions it
  passes to `PutPixel`, given in closed form. It also proves Bresenham's
  decision rule against exact rounding.
- `Pixels` (pure): the buffer as a value, and what a sequence of
  `PutPixel` calls does to it.
- `Terminal`: an abstract console. Writes are events (`SetFg`, `SetBg`,
  `Glyph`, `Goto`, `NewLine`, `Reset`, `CursorVisible`), and a reference
  interpreter gives their effect on cursor, colours and cells.
- `Compositor`: the event stream `EndDraw` writes for a buffer, as a
  function.
- `FrameReplay`, `FrameShape` and `FrameEscapes`: what that stream does
  to the terminal, how many glyphs and line breaks it has, and when it
  writes escapes.
- `Progbase`: the class `Canvas`. It has the source's fields and a
  nullable `array2` buffer. Each public method is imperative, with the
  source's loops. Each is proved against the functions above:
  - a shape routine leaves the buffer equal to `Paint` of its position
    sequence;
  - `EndDraw` returns exactly `Flush` of the buffer as its `written`
    events.

Console output is modelled as each method's returned `written` sequence.
`BeginDraw` writes `CursorVisible(false)`, and `EndDraw` writes the frame.

## Model

| member | source | states |
|---|---|---|
| Progbase.Canvas.constructor | Canvas.cs:15-24 | a new canvas has no buffer, size 1×1, origin (1, 1), a black pen, and is neither drawing nor inverted |
| Progbase.Canvas.GetColorAt | Canvas.cs:321-324 | the colour is the buffer's cell at row y, column x |
| Progbase.Canvas.SetOrigin | Canvas.cs:30-38 | while drawing it fails with InvalidOperation, checked before the arguments; a negative row or column gives ArgumentOutOfRange; on success the origin becomes (conRow, conColumn); on failure the origin is unchanged |
| Progbase.Canvas.SetSize | Canvas.cs:40-50 | while drawing it fails with InvalidOperation, checked first; a width or height below 1 gives ArgumentOutOfRange; otherwise the size is recorded and a fresh all-black buffer of that shape is installed; on failure size and buffer are unchanged |
| Progbase.Canvas.InvertYOrientation | Canvas.cs:52-57 | while drawing it fails with InvalidOperation and the flag is unchanged; otherwise the flag is negated, so two calls restore it |
| Progbase.Canvas.SetColor | Canvas.cs:59-64 | only while drawing: the pen becomes the given index; otherwise InvalidOperation and the pen is unchanged |
| Progbase.Canvas.SetColorRgb | Canvas.cs:66-69 | only while drawing: the pen becomes EncodeColor(red, green, blue) |
| Progbase.Canvas.SetColorHex | Canvas.cs:76-89 | the string is parsed before the drawing check, so a parse error (Format or ArgumentOutOfRange) wins over InvalidOperation; on success the pen is the encoding of the parsed colour; on any failure the pen is unchanged |
| Progbase.Canvas.BeginDraw | Canvas.cs:91-103 | while drawing it fails with InvalidOperation and writes nothing; otherwise it writes CursorVisible(false); with no buffer yet it then fails with NullReference; otherwise every cell becomes 0, the pen becomes 0 and drawing starts; origin, size and orientation are untouched; when it fails the buffer is unchanged |
| Progbase.Canvas.EndDraw | Canvas.cs:105-156 | when not drawing it fails with InvalidOperation and writes nothing; otherwise it writes exactly Flush(buffer, layout), stops drawing and leaves the buffer unchanged |
| Progbase.Canvas.WriteFrame | Canvas.cs:109-151 | the outer loop writes the first height/2 terminal rows of the compositor stream, carrying the last colours written from row to row |
| Progbase.Canvas.WriteLine | Canvas.cs:117-150 | one terminal row: the cursor move when positioning manually, the row's cells, a line break otherwise; it returns the colours last written |
| Progbase.Canvas.WriteRow | Canvas.cs:128-145 | the inner loop writes the row's cells and ends with the last column's colours as the slots' last values |
| Progbase.Canvas.WriteCell | Canvas.cs:130-144 | one column: each slot's escape exactly when its colour differs from the last written, then the glyph |
| Progbase.Canvas.PutPixel | Canvas.cs:158-166 | fails when not drawing; otherwise the buffer becomes PaintAt(old buffer, (x, y), pen), which changes cell [y, x] when 0 <= x < width and 0 <= y < height (InBounds, Canvas.cs:316-319) and nothing otherwise |
| Progbase.Canvas.StrokeLine | Canvas.cs:170-219 | fails when not drawing; otherwise the buffer is the old one painted with LinePoints(x0, y0, x1, y1), in order |
| Progbase.Canvas.LineAlongX | Canvas.cs:181-199 | the x-driven loop (dy <= dx) paints steps 1 to dx of LinePoints; its invariant ties x, y and d to the closed form |
| Progbase.Canvas.LineAlongY | Canvas.cs:200-218 | the y-driven loop (dx < dy) paints steps 1 to dy of LinePoints |
| Progbase.Canvas.StrokeRect | Canvas.cs:223-237 | fails when not drawing; otherwise the buffer is the old one painted with OutlineOrder: the side pairs row by row, then the top/bottom pairs column by column |
| Progbase.Canvas.StrokeSides | Canvas.cs:227-231 | the first loop paints SidePairs(x, y, w, h) |
| Progbase.Canvas.StrokeEdges | Canvas.cs:232-236 | the second loop paints EdgePairs(x, y, h, w) |
| Progbase.Canvas.FillRect | Canvas.cs:239-250 | fails when not drawing; otherwise the buffer is the old one painted with BoxOrder, row by row and left to right |
| Progbase.Canvas.FillRows | Canvas.cs:243-249 | the outer loop paints the rows [y, y+h) |
| Progbase.Canvas.FillRow | Canvas.cs:245-248 | the inner loop paints RowRun(x, row, w) |
| Progbase.Canvas.StrokeCircle | Canvas.cs:252-257 | InvalidOperation when not drawing; otherwise StrokeEllipse's result with both semi-axes equal to the radius, so a radius <= 0 gives ArgumentOutOfRange |
| Progbase.Canvas.FillCircle | Canvas.cs:259-266 | InvalidOperation when not drawing, ArgumentOutOfRange for radius <= 0, otherwise the filled ellipse with both semi-axes equal to the radius |
| Progbase.Canvas.StrokeEllipse | Canvas.cs:268-284 | InvalidOperation when not drawing, checked first; then ArgumentOutOfRange when a <= 0 or b <= 0; otherwise the sample positions are painted in order; on failure the buffer is unchanged |
| Progbase.Canvas.FillEllipse | Canvas.cs:286-303 | the same checks in the same order; otherwise the buffer is the old one painted with EllipseScan over offset columns [-a, a) and offset rows [-b, b) that pass the inclusion test |
| Progbase.Canvas.FillColumns | Canvas.cs:293-302 | the outer loop paints the columns [-a, a) one after the other |
| Progbase.Canvas.FillColumn | Canvas.cs:295-301 | the inner loop paints the accepted offsets of one column |
| ColorEncoder.Level | Canvas.cs:309-311 | a channel's level l is in 0..5, with 51*l <= channel < 51*(l+1) |
| ColorEncoder.CubeLevels | Canvas.cs:313 | each cube index 16..231 is 16 + 36r + 6g + b for exactly the levels returned, each in 0..5 |
| ColorEncoder.EncodeColor | Canvas.cs:307-314 | the index lies in [16, 231], no byte truncation happens, and it decodes to the three channels' levels, so it is 16 + 36*(r/51) + 6*(g/51) + b/51 |
| ColorEncoder.EncodeColorSameIffSameLevels | Canvas.cs:307-314 | two colours get the same index if and only if all three levels agree |
| ColorEncoder.EncodeColorReachesCube | Canvas.cs:307-314 | every index of the cube is produced, by the colour with channels 51 times its levels |
| ColorEncoder.EncodeColorExamples | Canvas.cs:307-314 | (255,0,0) gives 196, (0,255,0) gives 46, (0,0,255) gives 21, black gives 16 and white gives 231 |
| ColorEncoder.HexValue | Canvas.cs:81 | a hexadecimal digit's value is in 0..15 |
| ColorEncoder.ParsePair | Canvas.cs:81-88 | `byte.Parse` of a two-character hex string succeeds if and only if both characters are hex digits or white space and at least one is a digit; failure is Format; two digits give 16*hi + lo, and one digit with white space before or after it gives that digit's value |
| ColorEncoder.TrimHashes | Canvas.cs:78 | the result does not start with '#' |
| ColorEncoder.TrimHashesSuffix | Canvas.cs:78 | trimming removes only a leading run of '#' and keeps the rest of the string |
| ColorEncoder.PairAt | Canvas.cs:80-88 | `byte.Parse(Substring(offset, 2))` succeeds exactly when the pair lies inside the string and parses; a pair past the end fails with ArgumentOutOfRange and a pair that is not hexadecimal with Format |
| ColorEncoder.RedOffset | Canvas.cs:79-88 | the red pair starts at 0 or 2, and the three pairs fit exactly when the trimmed string has length 6 or at least 8 |
| ColorEncoder.ParseHexColor | Canvas.cs:76-89 | the colour `SetColor(string)` stands for: it can fail only with ArgumentOutOfRange or Format, and it succeeds only when the trimmed length is 6 or at least 8; the rest of its meaning is stated by ParseHexColorSpec and the round-trip lemmas below |
| ColorEncoder.ParseHexColorSpec | Canvas.cs:76-89 | after trimming, a string parses if and only if its three pairs exist and parse, at offsets 0, 2, 4 for length 6 and 2, 4, 6 for any other length, and the colour is those three bytes |
| ColorEncoder.ParseHexColorShortFails | Canvas.cs:84-88 | after trimming, a string shorter than 8 characters that is not 6 long is refused |
| ColorEncoder.ParseHexColorIgnoresHash | Canvas.cs:78 | leading '#' signs do not change the result |
| ColorEncoder.ParseHexColorSkipsLeadingPair | Canvas.cs:84-88 | a pair in front of a 6-character string is skipped, errors included |
| ColorEncoder.ParsePairOfHexPair | Canvas.cs:81-83 | parsing a byte written as two hex digits gives the byte back |
| ColorEncoder.ParseFormatHexColor | Canvas.cs:79-83 | parsing `#RRGGBB` written from a colour gives the colour back |
| ColorEncoder.ParseFormatHexColorWithAlpha | Canvas.cs:84-88 | `#AARRGGBB` parses to RRGGBB whatever AA is |
| ColorEncoder.HexColorExamples | Canvas.cs:76-89 | "#FF0000" and "#AAFF0000" both give (255, 0, 0) |
| Raster.Nearest | Canvas.cs:183-196 | n/m rounded to the nearest integer with halves rounded down: 2mk <= 2n + m - 1 < 2m(k + 1) |
| Raster.LineEndpoints | Canvas.cs:170-219 | a line has max(\|dx\|, \|dy\|) + 1 pixels, the first (x0, y0) and the last (x1, y1) |
| Raster.LineStep | Canvas.cs:181-218 | each step moves the driving axis (x exactly when dy <= dx) by one step of its sign and the other axis by 0 or one step of its sign |
| Raster.BresenhamStep | Canvas.cs:188-196 | the decision variable's sign says whether the minor coordinate advances: the rounded offset of step i is k + 1 when d > 0 and k otherwise |
| Raster.DecisionUpdate | Canvas.cs:188-196 | adding d2 or d1 keeps d at 2*minor*i - major - 2*major*k |
| Raster.AlongXStart | Canvas.cs:183-186 | the x-driven loop starts at step 1 with d = 2dy - dx |
| Raster.AlongXStep | Canvas.cs:186-198 | one pass of the x-driven loop writes step i of the line and re-establishes the loop state for step i + 1 |
| Raster.AlongYStart | Canvas.cs:202-205 | the y-driven loop starts at step 1 with d = 2dx - dy |
| Raster.AlongYStep | Canvas.cs:205-217 | one pass of the y-driven loop writes step i and re-establishes the loop state |
| Raster.LineNotSymmetric | Canvas.cs:181-199 | (0,0)–(2,1) and (2,1)–(0,0) differ in their middle pixel |
| Raster.RowRunCells | Canvas.cs:245-248 | the inner fill loop makes w calls (none for w <= 0), exactly the cells [x, x+w) of its row |
| Raster.BoxOrderCells | Canvas.cs:243-249 | FillRect makes h*w calls for positive sizes and reaches exactly the box [x, x+w) × [y, y+h), so nothing when w <= 0 or h <= 0 |
| Raster.SidePairsCells | Canvas.cs:227-231 | the first StrokeRect loop reaches exactly columns x and x+w-1 of the rows [y, y+h) |
| Raster.EdgePairsCells | Canvas.cs:232-236 | the second loop reaches exactly rows y and y+h-1 of the columns [x, x+w) |
| Raster.OutlineOrderCells | Canvas.cs:223-237 | StrokeRect makes 2h + 2w calls for positive sizes and reaches exactly the cells OnOutline describes |
| Raster.OutlineIsBorder | Canvas.cs:223-237 | for w, h >= 1 those are the cells of the box in its first or last column or row |
| Raster.OutlineOfFlatBox | Canvas.cs:232-236 | with h = 0 the box is empty, yet rows y and y-1 are drawn across the width |
| Raster.ColumnScanCells | Canvas.cs:295-301 | the inner ellipse loop reaches exactly the accepted offsets of its column |
| Raster.EllipseScanCells | Canvas.cs:293-302 | the ellipse scan reaches exactly the accepted offsets in the columns scanned so far and the rows [-b, b) |
| Raster.EllipseFillCells | Canvas.cs:293-302 | FillEllipse reaches exactly the pixels whose offset lies in [-a, a) × [-b, b) and passes the inclusion test |
| Pixels.PaintAtCells | Canvas.cs:158-166 | one PutPixel changes the cell it names, if it exists, and nothing else |
| Pixels.PaintCells | Canvas.cs:158-166 | after a sequence of calls a cell has the pen colour exactly when a call named it, and keeps its colour otherwise; the shape never changes |
| Pixels.PaintSameCells | Canvas.cs:158-166 | the buffer depends only on the set of positions named, not their order or repetition |
| Pixels.PaintAppend | Canvas.cs:158-166 | calls ps then qs do what ps + qs does |
| Pixels.PaintIdempotent | Canvas.cs:158-166 | drawing the same shape twice in one colour is drawing it once |
| Pixels.FillRectEffect | Canvas.cs:239-250 | after FillRect a cell has the pen colour exactly when it lies in the box (clipped to the buffer) and keeps its colour otherwise |
| Pixels.StrokeRectEffect | Canvas.cs:223-237 | after StrokeRect a cell has the pen colour exactly when it is on the outline, and keeps its colour otherwise |
| Pixels.FillEllipseEffect | Canvas.cs:286-303 | after the fill a cell has the pen colour exactly when EllipseCovers it, and keeps its colour otherwise |
| Terminal.ReplayAppend | Canvas.cs:128-153 | writing two streams in order has the effect of writing their concatenation |
| Compositor.RowCarry | Canvas.cs:109-145 | a proof step for WriteFrame, unfolding PrevUpper and PrevLower: after row yi the last colours are the values the first cell of row yi + 1 is compared with; the promise itself is carried by FrameEscapes.PrefixSlots |
| Compositor.RowHeadIs | Canvas.cs:112-126 | a proof step for WriteLine, unfolding Manual: a cursor move to (originColumn, originRow + yi) precedes row yi exactly when originRow > 0 or originColumn > 0; what the move does is stated by FrameReplay.ReplayHead |
| Compositor.Render | Canvas.cs:115-151 | the rows EndDraw writes, defined cell by cell; its shape is stated by FrameShape.RenderCounts, its escapes by FrameEscapes.EscapeIffColourChanges and its effect by FrameReplay.FlushShowsBuffer |
| Compositor.Flush | Canvas.cs:109-153 | the rows followed by ResetColor and the cursor shown again; what it does to a terminal is stated by FrameReplay.FlushShowsBuffer |
| FrameReplay.ReplayCell | Canvas.cs:128-145 | replaying one cell paints the terminal cell under the cursor with its two buffer pixels, moves one column right, and leaves both slots at that cell's colours |
| FrameReplay.ReplayUpperEscape | Canvas.cs:130-135 | the upper slot's escape sets that slot to the cell's upper colour, whether or not it is written, and touches nothing else |
| FrameReplay.ReplayLowerEscape | Canvas.cs:137-142 | the same for the lower slot |
| FrameReplay.ReplayRow | Canvas.cs:128-145 | replaying the first n cells of a row paints n consecutive terminal cells from the cursor and leaves other rows alone |
| FrameReplay.ReplayHead | Canvas.cs:123-126 | the row head puts the cursor at the row's start |
| FrameReplay.ReplayTail | Canvas.cs:147-150 | without positioning, the tail moves to column 0 of the next line |
| FrameReplay.ReplayLine | Canvas.cs:117-150 | one terminal row paints its cells where ScreenPos says |
| FrameReplay.ReplayFrame | Canvas.cs:115-151 | replaying the first n rows paints every cell of them with the pixels Shows names |
| FrameReplay.FlushShowsBuffer | Canvas.cs:105-156 | the compositor is lossless: whatever the terminal's starting state, terminal row yi, column x shows buffer row TopRow(yi) in the top half and BottomRow(yi) in the bottom half, which are the rows flipped vertically when inverted; afterwards the colours are the defaults and the cursor is visible |
| FrameShape.CellEventsCounts | Canvas.cs:130-144 | each column writes exactly one glyph and no line break |
| FrameShape.RowEventsCounts | Canvas.cs:128-145 | the first n columns write n glyphs and no line break |
| FrameShape.LineEventsCounts | Canvas.cs:123-150 | one terminal row writes width glyphs, with one line break exactly when not positioning manually |
| FrameShape.FrameEventsGlyphs | Canvas.cs:115-151 | n rows write n*width glyphs |
| FrameShape.FrameEventsNewLines | Canvas.cs:115-151 | n rows write n line breaks without manual positioning and none with it |
| FrameShape.RenderCounts | Canvas.cs:115-151 | the frame has height/2 rows of width glyphs, with height/2 line breaks exactly when not positioning manually |
| FrameShape.RenderIgnoresUnpairedRow | Canvas.cs:115-137 | buffers that differ only in rows at or past 2*(height/2) give the same stream: the odd last row is never read |
| FrameShape.FrameEventsSame | Canvas.cs:115-151 | the stream depends only on the colours of the row pairs it reads |
| FrameEscapes.CellEscapes | Canvas.cs:130-142 | a column's events contain a slot's escape exactly when its colour differs from the last value written for that slot |
| FrameEscapes.PrefixSlots | Canvas.cs:109-142 | replayed from the default colours, the stream before each cell leaves each slot at the compositor's remembered value |
| FrameEscapes.EscapeIffColourChanges | Canvas.cs:130-142 | an escape is written for a slot if and only if the cell's colour differs from the colour the terminal holds in that slot, so no escape is ever repeated |
| FrameEscapes.CellPrefixIsPrefix | Canvas.cs:115-145 | the events of every column follow the events before it, in stream order |
| FrameEscapes.RenderOpensWithBothEscapes | Canvas.cs:109-142 | the first column always writes both escapes, because the remembered values start at -1 |

## Left out

- `SetColor(double, double, double)` (Canvas.cs:71-74) is not modelled. It only truncates floating-point channels to bytes before `SetColorRgb`.
- Progbase.Canvas.StrokeEllipse: the sample positions are a parameter. The double-precision sampling by angle (Canvas.cs:275-283) cannot be modelled over integers, so the contract says only that those positions are painted in order, after the argument checks.
- Progbase.Canvas.StrokeCircle: the same parameter, for the same reason.
- Progbase.Canvas.FillEllipse: the inclusion test `x*x/(a*a) + y*y/(b*b) <= 1` is a parameter `inside`. The source computes it in `float`, so pixels on the boundary depend on rounding. The float loop counters and the float sums `x + cx`, `y + cy` (Canvas.cs:293-299) are modelled as exact integers. In the source a centre or a sum of magnitude 2^24 or more is rounded before the `(int)` cast, so the painted pixel can differ. For some semi-axes above 2^24, `x++` or `y++` rounds back to the same float, so the source's loop never ends while the model's does.
- Progbase.Canvas.FillCircle: the same inclusion-test parameter as FillEllipse.
- C# `int` is 32-bit. The model uses unbounded integers. Overflow in `x + width`, `y + height`, `originRow + yi`, `dy << 1`, `a * a` and similar expressions is not modelled.
- The console is not modelled. Output is a sequence of `Event` values. The literal ANSI strings, `Console.SetCursorPosition`'s exception for positions outside the window, and the terminal's wrapping and scrolling are all left out. The `Terminal` module's interpreter is a reference for judging the stream; it does not come from the source.
- Some `byte.Parse` details are not modelled: culture settings and trailing NUL characters. White space around a single digit is modelled, and `ColorEncoder.ParsePair` states its value.
- Progbase.Canvas.SetColorHex: a null `hexColor` is not modelled. The source throws NullReferenceException from `TrimStart('#')` at Canvas.cs:78, but a Dafny `string` cannot be null.
- ColorEncoder.ParseHexColor: a string is a sequence of Unicode scalar values, so `Length` and `Substring` (Canvas.cs:79-88) are counted in characters, not in the UTF-16 code units C# counts. A string with a character outside the Basic Multilingual Plane can therefore take the other length branch, use other offsets, or fail with another error than in the source. For example, `"\U{1F600}FF0000"` gives colour (255, 0, 0) in the source but ArgumentOutOfRange here.
- Progbase.Canvas.SetColorHex: parses with `ColorEncoder.ParseHexColor`, so it differs from the source in the same way for characters outside the Basic Multilingual Plane.
- The static facade `Procedural/Canvas.cs` and its console-mode setup through foreign calls are not part of this model.
- `InBounds` (Canvas.cs:316-319) is modelled as `Progbase.Canvas.InBounds`. Its meaning is stated through `PutPixel`'s contract rather than a contract of its own.
- The helper methods `StrokeSides`, `StrokeEdges`, `FillRows`, `FillRow`, `FillColumns`, `FillColumn`, `LineAlongX`, `LineAlongY`, `WriteFrame`, `WriteLine`, `WriteRow` and `WriteCell` are the source's loops, each moved into a method of its own. The statements and their order are unchanged.

## Where the natural reading and the code differ

The model follows the code:

- Line symmetry. One would expect the line from (x0, y0) to (x1, y1) to cover the same pixels as the line from (x1, y1) to (x0, y0). The code's tie rule (`d > 0`) rounds halves towards the start, so it is not. `Raster.LineNotSymmetric` gives an example.
- Hex string length. The comment `assuming length of 8` at Canvas.cs:84 reads as if only lengths 6 and 8 were meant, so that any other length would be refused. The code treats every length other than 6 as the 8-digit form. A longer string parses from its pairs at offsets 2, 4 and 6, and a shorter one fails with ArgumentOutOfRange from `Substring`, or with Format first when an earlier pair is not hexadecimal.
- StrokeRect of a degenerate box. The name StrokeRect suggests the four border lines of the box, which for a height of 0 are no lines at all. For a height of 0 the code's second loop still draws rows y and y-1 across the width. `Raster.OutlineOfFlatBox` states this.
