/** `ChromeTerminal` of js/terminal.js: the window's size, the cursor, the
    character grid and the session it hands to the command language. */
module Terminal {
  import opened Wrappers
  import opened JsString
  import opened Screen
  import Session
  import Commands
  import Interpreter

  /** The constructor's checks on the window size, in the order it makes them. */
  function SizeError(columns: int, rows: int): (r: Option<string>)
    ensures r.None? <==> 30 <= columns <= 100 && 15 <= rows <= 100
  {
    if columns < 30 then Some("Minimum of 30 columns.")
    else if columns > 100 then Some("Maximum of 100 columns.")
    else if rows < 15 then Some("Minimum of 15 rows required.")
    else if rows > 100 then Some("Maximum of 100 rows.")
    else None
  }

  /** `setCharPos(x, y)`: `NaN` and coordinates at or past the last
      column or row are refused, x first; anything below is accepted,
      negative coordinates included. */
  function CharPos(x: Option<int>, y: Option<int>, columns: int, rows: int): (r: Result<(int, int)>)
    ensures r.Ok? <==> x.Some? && x.value < columns && y.Some? && y.value < rows
    ensures r.Ok? ==> r.value == (x.value, y.value)
    ensures !(x.Some? && x.value < columns) ==> r == Err("x coordinate " + Commands.NumberText(x) + " out of bounds.")
    ensures x.Some? && x.value < columns && !(y.Some? && y.value < rows) ==>
      r == Err("y coordinate " + Commands.NumberText(y) + " out of bounds.")
  {
    if x.None? || x.value >= columns then Err("x coordinate " + Commands.NumberText(x) + " out of bounds.")
    else if y.None? || y.value >= rows then Err("y coordinate " + Commands.NumberText(y) + " out of bounds.")
    else Ok((x.value, y.value))
  }

  /** The snake game's victory banner is printed from column
      `Math.floor(columns / 2 - 25)`, left of the grid on every window
      narrower than 50 columns; `setCharPos` accepts that column. */
  lemma BannerColumnAccepted(columns: int, rows: int, line: int)
    requires 30 <= columns < 50 && 0 <= line < rows
    ensures columns / 2 - 25 < 0
    ensures CharPos(Some(columns / 2 - 25), Some(line), columns, rows) == Ok((columns / 2 - 25, line))
  {
  }

  /** The key codes `parseInput` echoes and keeps: digits, space, letters,
      the numeric pad, and the punctuation keys. */
  predicate IsAcceptedKey(code: int)
  {
    (47 < code < 58) || code == 32 || (64 < code < 91) || (95 < code < 112)
    || (185 < code < 193) || (218 < code < 223)
  }

  /** The `keyVals` table of `charToKeyCode`: the key code of the key
      that types a punctuation character. */
  function PunctuationKey(c: char): Option<int>
  {
    match c
    case '!' => Some(49) case '@' => Some(50) case '#' => Some(51) case '$' => Some(52)
    case '%' => Some(53) case '^' => Some(54) case '&' => Some(55) case '*' => Some(56)
    case '(' => Some(57) case ')' => Some(48) case '-' => Some(189) case '=' => Some(187)
    case '[' => Some(219) case ']' => Some(221) case '\\' => Some(220) case ';' => Some(186)
    case '\'' => Some(222) case ',' => Some(188) case '.' => Some(190) case '/' => Some(191)
    case '`' => Some(192) case '~' => Some(192) case '{' => Some(219) case '}' => Some(221)
    case '|' => Some(220) case ':' => Some(186) case '"' => Some(222) case '<' => Some(188)
    case '>' => Some(190) case '?' => Some(191)
    case _ => None
  }

  /** `charToKeyCode(char)`: the upper-cased character's code when it is
      a digit, a space or a letter, otherwise the table; `undefined` for
      anything else. */
  function CharToKeyCode(c: char): Option<int>
  {
    var code := UpperChar(c) as int;
    if (47 < code < 58) || code == 32 || (64 < code < 91) then Some(code) else PunctuationKey(c)
  }

  /** Every character the mobile input path maps to a key code is one
      `parseInput` accepts and echoes; none of them is Enter, Backspace or
      Tab. */
  lemma KeyCodesAccepted(c: char)
    ensures CharToKeyCode(c).Some? ==> IsAcceptedKey(CharToKeyCode(c).value)
    ensures CharToKeyCode(c).Some? ==> CharToKeyCode(c).value !in {8, 9, 13}
  {
  }

  /** Where a key press leaves the line being typed: still being typed,
      entered, or interrupted by a TypeError thrown from `backspace`. */
  datatype Typing = Pending(userIn: seq<string>) | Entered(line: string) | Thrown(userIn: seq<string>, error: string)

  /** `userIn.pop()`. */
  function Pop(userIn: seq<string>): seq<string>
  {
    if |userIn| == 0 then [] else userIn[..|userIn| - 1]
  }

  /** The message of the TypeError `backspace` throws on an unwritten cell. */
  const UnwrittenCell := "TypeError: Cannot read properties of undefined (reading 'char')"

  class ChromeTerminal {
    var x: int
    var y: int
    const columns: int
    const rows: int
    /** `display.data`, one row per screen row. */
    const data: array<Row>
    /** The command language's state: `program`, `status` and `registeredCmd`. */
    var session: Session.Session

    /** The constructor's bounds hold and there is one row per screen row. */
    ghost predicate Sized()
      reads this
    {
      30 <= columns <= 100 && 15 <= rows <= 100 && data.Length == rows
    }

    /** Sized, the cursor left of the last column (a negative column is
        a cell of the sparse row too) and on one of the rows. */
    ghost predicate Valid()
      reads this, data
    {
      Sized() && x < columns && 0 <= y < rows
    }

    /** The grid and the cursor as a value. */
    function View(): Display
      reads this, data
    {
      Display(data[..], x, y)
    }

    /** The constructor once its checks pass: an empty row per screen row
      and the cursor at the top left. */
    constructor Init(columns: int, rows: int)
      requires SizeError(columns, rows).None?
      ensures this.columns == columns && this.rows == rows
      ensures Valid() && fresh(data)
      ensures View() == Display(Blank(rows), 0, 0)
      ensures session == Session.Initial([])
    {
      this.columns := columns;
      this.rows := rows;
      data := new Row[rows](_ => map[]);
      x, y := 0, 0;
      session := Session.Initial([]);
    }

    /** `new ChromeTerminal(columns, rows)`: throws the first failed check. */
    static method Create(columns: int, rows: int) returns (r: Result<ChromeTerminal>)
      ensures r.Err? <==> SizeError(columns, rows).Some?
      ensures r.Err? ==> r.error == SizeError(columns, rows).value
      ensures r.Ok? ==> (fresh(r.value) && fresh(r.value.data) && r.value.Valid()
        && r.value.columns == columns && r.value.rows == rows
        && r.value.View() == Display(Blank(rows), 0, 0))
    {
      var e := SizeError(columns, rows);
      if e.Some? {
        return Err(e.value);
      }
      var t := new ChromeTerminal.Init(columns, rows);
      return Ok(t);
    }

    /** `scrollTerminalContents`: the rows are shifted up in place. */
    method Scroll()
      requires data.Length >= 1
      modifies this, data
      ensures data[..] == Scrolled(old(data[..]))
      ensures x == old(x) && y == old(y) - 1 && session == old(session)
    {
      var row := 1;
      while row < data.Length
        invariant 1 <= row <= data.Length
        invariant forall k :: 0 <= k < row - 1 ==> data[k] == old(data[k + 1])
        invariant forall k :: row - 1 <= k < data.Length ==> data[k] == old(data[k])
        invariant x == old(x) && y == old(y) && session == old(session)
      {
        data[row - 1] := data[row];
        row := row + 1;
      }
      data[data.Length - 1] := map[];
      y := y - 1;
    }

    /** `insertNewLine`; `incrementCharPos` calls it with the cursor one
      past the last column. */
    method InsertNewLine()
      requires Sized() && 0 <= y < rows
      modifies this, data
      ensures Valid() && View() == NewLine(old(View()), rows) && session == old(session)
    {
      y := y + 1;
      if y == rows {
        Scroll();
      }
      x := 0;
    }

    /** `incrementCharPos`; the delay it may sleep for is not modelled. */
    method IncrementCharPos()
      requires Valid()
      modifies this, data
      ensures Valid() && View() == Advance(old(View()), columns, rows) && session == old(session)
    {
      x := x + 1;
      if x == columns {
        InsertNewLine();
      }
    }

    /** `setCharPos(x, y)`. A negative row is accepted too, but leaves
        the cursor where no row of the grid is. */
    method SetCharPos(nx: Option<int>, ny: Option<int>) returns (r: Result<(int, int)>)
      requires Valid()
      modifies this
      ensures r == CharPos(nx, ny, columns, rows)
      ensures Valid() <==> y >= 0
      ensures r.Ok? ==> x == nx.value && y == ny.value
      ensures r.Err? ==> x == old(x) && y == old(y)
      ensures session == old(session)
    {
      r := CharPos(nx, ny, columns, rows);
      if r.Ok? {
        x, y := r.value.0, r.value.1;
      }
    }

    /** `backspace`: step the cursor back one cell unless that cell is the
      prompt's NUL or the cursor is at the top left. */
    method Backspace() returns (r: Result<bool>)
      requires Valid()
      modifies this
      ensures Valid() && session == old(session)
      ensures match Retreat(old(View()), columns)
        case Refused => r == Ok(false) && x == old(x) && y == old(y)
        case Unwritten => r == Err(UnwrittenCell) && x == old(x) && y == old(y)
        case Back(px, py) => r == Ok(true) && x == px && y == py
    {
      var px, py := x, y;
      if px == 0 {
        if py == 0 {
          return Ok(false);
        }
        py := py - 1;
        px := columns;
      }
      px := px - 1;
      if px !in data[py] {
        return Err(UnwrittenCell);
      }
      if data[py][px] == "\U{0}" {
        return Ok(false);
      }
      x, y := px, py;
      return Ok(true);
    }

    /** `print(text)`: nothing while output is suppressed; otherwise each
      character is painted, and the text joins the session's output. */
    method Print(text: string)
      requires Valid()
      modifies this, data
      ensures Valid()
      ensures old(session).suppress ==> View() == old(View()) && session == old(session)
      ensures !old(session).suppress ==>
        View() == Paint(old(View()), text, columns, rows) && session == Session.Printed(old(session), text)
    {
      if session.suppress {
        return;
      }
      var i := 0;
      while i < |text|
        invariant 0 <= i <= |text|
        invariant Valid() && session == old(session)
        invariant View() == Paint(old(View()), text[..i], columns, rows)
      {
        PaintStep(old(View()), text, i, columns, rows);
        if text[i] == '\n' {
          InsertNewLine();
        } else {
          data[y] := data[y][x := Cell(text[i])];
          IncrementCharPos();
        }
        i := i + 1;
      }
      assert text[..i] == text;
      session := Session.Printed(session, text);
    }

    /** `println(text)`. */
    method Println(text: string)
      requires Valid()
      modifies this, data
      ensures Valid()
      ensures old(session).suppress ==> View() == old(View()) && session == old(session)
      ensures !old(session).suppress ==>
        View() == Paint(old(View()), text + "\n", columns, rows) && View().x == 0
        && session == Session.Println(old(session), text)
    {
      Print(text + "\n");
      if !old(session).suppress {
        PrintlnColumn(old(View()), text, columns, rows);
      }
    }

    /** `parseInput(keyCode, char, userIn, ...)` for one key press. Enter
      prints a line break and yields the typed line; Backspace erases
      and drops the last typed key; Tab completes nothing, since no
      command of the model has a completion handler; any other accepted
      key is echoed and kept unless the input is limited. */
    method ParseInput(keyCode: Option<int>, key: string, userIn: seq<string>, limit: bool) returns (r: Typing)
      requires Valid()
      modifies this, data
      ensures Valid()
      ensures keyCode == Some(13) ==> (r == Entered(Join(userIn, ""))
        && session == Session.Printed(old(session), "\n")
        && (old(session).suppress ==> View() == old(View()))
        && (!old(session).suppress ==> View() == Paint(old(View()), "\n", columns, rows)))
      ensures keyCode == Some(8) ==> (session == old(session) && data[..] == old(data[..])
        && (Retreat(old(View()), columns).Unwritten? ==> r == Thrown(userIn, UnwrittenCell))
        && (!Retreat(old(View()), columns).Unwritten? ==> r == Pending(Pop(userIn))))
      ensures keyCode == Some(8) ==> match Retreat(old(View()), columns)
        case Refused => x == old(x) && y == old(y)
        case Unwritten => x == old(x) && y == old(y)
        case Back(px, py) => x == px && y == py
      ensures keyCode == Some(9) ==> r == Pending(userIn) && View() == old(View()) && session == old(session)
      ensures keyCode.None? || keyCode.value !in {8, 9, 13} ==>
        if !limit && keyCode.Some? && IsAcceptedKey(keyCode.value) then
          r == Pending(userIn + [key])
          && session == Session.Printed(old(session), key)
          && (old(session).suppress ==> View() == old(View()))
          && (!old(session).suppress ==> View() == Paint(old(View()), key, columns, rows))
        else r == Pending(userIn) && View() == old(View()) && session == old(session)
    {
      if keyCode == Some(13) {
        Print("\n");
        return Entered(Join(userIn, ""));
      } else if keyCode == Some(8) {
        var moved := Backspace();
        if moved.Err? {
          return Thrown(userIn, moved.error);
        }
        return Pending(Pop(userIn));
      } else if keyCode == Some(9) {
        return Pending(userIn);
      }
      if !limit && keyCode.Some? && IsAcceptedKey(keyCode.value) {
        Print(key);
        return Pending(userIn + [key]);
      }
      return Pending(userIn);
    }

    /** `registerCmd(name, options)`: the registry is re-sorted by name. */
    method RegisterCmd(name: string, cmd: Session.Cmd)
      modifies this
      ensures session == old(session).(registry := Session.RegisterCmd(old(session).registry, name, cmd))
      ensures x == old(x) && y == old(y)
    {
      session := session.(registry := Session.RegisterCmd(session.registry, name, cmd));
    }

    /** `processCmd(command)` on the terminal's session, within `fuel`
      nested dispatches. */
    method ProcessCmd(fuel: nat, command: string) returns (r: Interpreter.Step<string>)
      modifies this
      ensures r == Interpreter.ProcessCmd(fuel, old(session), command)
      ensures session == if r.Exhausted? then old(session) else r.state
      ensures x == old(x) && y == old(y)
    {
      r := Interpreter.ProcessCmd(fuel, session, command);
      if !r.Exhausted? {
        session := r.state;
      }
    }
  }
}
