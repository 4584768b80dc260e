/** An abstract terminal: the console the canvas writes to, reduced to
    the effect of each event on the cursor, the current colours and the
    cells on screen. It does not come from the canvas; it is the
    reference against which the compositor's output stream is judged. */
module Terminal {
  import opened Base

  /** One write of the canvas to the console. */
  datatype Event =
    | SetFg(color: byte)            // the escape ESC[38;5;{color}m
    | SetBg(color: byte)            // the escape ESC[48;5;{color}m
    | Glyph                         // one upper-half-block character
    | Goto(column: int, row: int)   // Console.SetCursorPosition(column, row)
    | NewLine                       // Console.WriteLine()
    | Reset                         // Console.ResetColor()
    | CursorVisible(visible: bool)  // Console.CursorVisible = visible

  datatype Pos = Pos(column: int, row: int)

  /** What one terminal cell shows once a half block is written to it:
      the top half in the foreground colour, the bottom half in the
      background colour; -1 stands for the terminal's default colour. */
  datatype Shade = Shade(top: int, bottom: int)

  datatype Screen = Screen(fg: int, bg: int, column: int, row: int,
                           cursorVisible: bool, cells: map<Pos, Shade>)

  /** The effect of one event. A glyph paints the cell under the cursor
      and moves the cursor one column right; a new line moves it to the
      start of the next row. */
  function Step(t: Screen, e: Event): Screen {
    match e
    case SetFg(c) => t.(fg := c as int)
    case SetBg(c) => t.(bg := c as int)
    case Glyph => t.(cells := t.cells[Pos(t.column, t.row) := Shade(t.fg, t.bg)], column := t.column + 1)
    case Goto(c, r) => t.(column := c, row := r)
    case NewLine => t.(column := 0, row := t.row + 1)
    case Reset => t.(fg := -1, bg := -1)
    case CursorVisible(v) => t.(cursorVisible := v)
  }

  /** The terminal after a stream of events, in order. */
  function Replay(t: Screen, evs: seq<Event>): Screen
    decreases |evs|
  {
    if evs == [] then t else Replay(Step(t, evs[0]), evs[1..])
  }

  /** Replaying two streams one after the other is replaying their
      concatenation. */
  lemma {:induction false} ReplayAppend(t: Screen, a: seq<Event>, b: seq<Event>)
    ensures Replay(t, a + b) == Replay(Replay(t, a), b)
    decreases |a|
  {
    if a != [] {
      assert (a + b)[0] == a[0];
      assert (a + b)[1..] == a[1..] + b;
      ReplayAppend(Step(t, a[0]), a[1..], b);
    } else {
      assert a + b == b;
    }
  }
}
