/** The character grid of the terminal window and the cursor moves of
    js/terminal.js, as functions on values: `insertNewLine`,
    `incrementCharPos`, `scrollTerminalContents`, `print`'s painting and
    the cell `backspace` steps back to. The class in terminal.dfy is
    proved to follow them. */
module Screen {

  /** One row of `display.data`: a sparse array of cell texts. */
  type Row = map<int, string>

  /** The rows of `display.data`. */
  type Grid = seq<Row>

  /** The grid with the cursor. */
  datatype Display = Display(grid: Grid, x: int, y: int)

  /** The grid has one row per screen row, and the cursor is on one of
      them, left of the last column. A negative column, which
      `setCharPos` accepts, is a cell of the sparse row like any other. */
  predicate InBounds(d: Display, columns: int, rows: int)
  {
    |d.grid| == rows && 0 < columns && d.x < columns && 0 <= d.y < rows
  }

  /** A grid of `rows` rows that were never written. */
  function Blank(rows: nat): (g: Grid)
    ensures |g| == rows && forall k :: 0 <= k < rows ==> g[k] == map[]
  {
    seq(rows, _ => map[])
  }

  /** `scrollTerminalContents`: every row moves up one, the top row is
      lost, and the bottom row is a fresh empty one. */
  function Scrolled(g: Grid): (r: Grid)
    requires |g| >= 1
    ensures |r| == |g|
    ensures forall k :: 0 <= k < |g| - 1 ==> r[k] == g[k + 1]
    ensures r[|g| - 1] == map[]
  {
    g[1..] + [map[]]
  }

  /** `insertNewLine`: the cursor goes to the start of the next row; on the
      last row the grid scrolls instead and the cursor stays on that row. */
  function NewLine(d: Display, rows: int): (r: Display)
    requires |d.grid| >= 1
  {
    if d.y + 1 == rows then Display(Scrolled(d.grid), 0, d.y) else Display(d.grid, 0, d.y + 1)
  }

  /** `incrementCharPos`: one column right, or a new line past the last column. */
  function Advance(d: Display, columns: int, rows: int): (r: Display)
    requires |d.grid| >= 1
  {
    if d.x + 1 == columns then NewLine(d, rows) else d.(x := d.x + 1)
  }

  /** What `print` stores in a cell for a character: a space is stored as
      the entity `&nbsp;`. */
  function Cell(c: char): (r: string)
    ensures r != "\U{0}" <==> c != '\U{0}'
  {
    if c == ' ' then "&nbsp;" else [c]
  }

  /** The cursor's cell set to `text`. */
  function Write(d: Display, text: string): (r: Display)
    requires 0 <= d.y < |d.grid|
    ensures |r.grid| == |d.grid| && r.x == d.x && r.y == d.y
    ensures r.grid[d.y] == d.grid[d.y][d.x := text]
    ensures forall k :: 0 <= k < |d.grid| && k != d.y ==> r.grid[k] == d.grid[k]
  {
    d.(grid := d.grid[d.y := d.grid[d.y][d.x := text]])
  }

  /** One character of `print`: a line break starts a new line, anything
      else is written at the cursor, which then advances. */
  function PaintChar(d: Display, c: char, columns: int, rows: int): (r: Display)
    requires InBounds(d, columns, rows)
    ensures InBounds(r, columns, rows)
  {
    if c == '\n' then NewLine(d, rows) else Advance(Write(d, Cell(c)), columns, rows)
  }

  /** `print(text)` on the grid. */
  function Paint(d: Display, text: string, columns: int, rows: int): (r: Display)
    requires InBounds(d, columns, rows)
    ensures InBounds(r, columns, rows)
    decreases |text|
  {
    if text == "" then d else Paint(PaintChar(d, text[0], columns, rows), text[1..], columns, rows)
  }

  /** Printing a text in two pieces paints what printing it at once does. */
  lemma {:induction false} PaintAppend(d: Display, a: string, b: string, columns: int, rows: int)
    requires InBounds(d, columns, rows)
    ensures Paint(d, a + b, columns, rows) == Paint(Paint(d, a, columns, rows), b, columns, rows)
    decreases |a|
  {
    if a != "" {
      assert (a + b)[0] == a[0] && (a + b)[1..] == a[1..] + b;
      PaintAppend(PaintChar(d, a[0], columns, rows), a[1..], b, columns, rows);
    } else {
      assert a + b == b;
    }
  }

  /** Painting one more character of a text: the step of `print`'s loop. */
  lemma PaintStep(d: Display, text: string, i: nat, columns: int, rows: int)
    requires InBounds(d, columns, rows) && i < |text|
    ensures Paint(d, text[..i + 1], columns, rows)
      == PaintChar(Paint(d, text[..i], columns, rows), text[i], columns, rows)
  {
    var pre := text[..i];
    assert pre + [text[i]] == text[..i + 1];
    PaintAppend(d, pre, [text[i]], columns, rows);
    PaintSingle(Paint(d, pre, columns, rows), text[i], columns, rows);
  }

  /** Painting a one-character text is painting that character. */
  lemma PaintSingle(d: Display, c: char, columns: int, rows: int)
    requires InBounds(d, columns, rows)
    ensures Paint(d, [c], columns, rows) == PaintChar(d, c, columns, rows)
  {
    assert [c][1..] == "";
  }

  /** A printed line break leaves the cursor at the start of a row, which
      is why `println` output always begins the next text on a fresh row. */
  lemma PrintlnColumn(d: Display, text: string, columns: int, rows: int)
    requires InBounds(d, columns, rows)
    ensures Paint(d, text + "\n", columns, rows).x == 0
  {
    PaintAppend(d, text, "\n", columns, rows);
    var e := Paint(d, text, columns, rows);
    assert "\n"[1..] == "";
    assert Paint(e, "\n", columns, rows) == NewLine(e, rows);
  }

  /** Where `backspace` ends: it refuses at the top-left corner and on the
      prompt's NUL cell, and throws a TypeError on a cell that was
      never written. */
  datatype Erase = Refused | Back(x: int, y: int) | Unwritten

  /** The cell before the cursor, in reading order, and what `backspace`
      does with it. */
  function Retreat(d: Display, columns: int): (r: Erase)
  {
    if d.x == 0 && d.y == 0 then Refused
    else
      var y := if d.x == 0 then d.y - 1 else d.y;
      var x := (if d.x == 0 then columns else d.x) - 1;
      if !(0 <= y < |d.grid|) || x !in d.grid[y] then Unwritten
      else if d.grid[y][x] == "\U{0}" then Refused
      else Back(x, y)
  }

  /** Backspace right after a character was printed steps back onto the
      cell that holds it: the same cell, or the one a row up when the
      print scrolled the grid. From column -1 the print ends at column 0,
      from which backspace goes up a row instead. */
  lemma BackspaceAfterPrint(d: Display, c: char, columns: int, rows: int)
    requires InBounds(d, columns, rows) && rows >= 2 && d.x != -1
    requires c != '\n' && c != '\U{0}'
    ensures var e := PaintChar(d, c, columns, rows);
      var y := if d.x + 1 == columns && d.y + 1 == rows then d.y - 1 else d.y;
      Retreat(e, columns) == Back(d.x, y) && e.grid[y][d.x] == Cell(c)
  {
    var w := Write(d, Cell(c));
    if d.x + 1 == columns && d.y + 1 == rows {
      assert Scrolled(w.grid)[d.y - 1] == w.grid[d.y];
    }
  }

  /** Backspace never leaves the grid. */
  lemma BackspaceInBounds(d: Display, columns: int, rows: int)
    requires InBounds(d, columns, rows)
    ensures Retreat(d, columns).Back? ==>
      InBounds(Display(d.grid, Retreat(d, columns).x, Retreat(d, columns).y), columns, rows)
  {
  }
}
