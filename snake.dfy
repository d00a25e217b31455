/** The Snake game of js/snake.js: the checks on its arguments, the key
    handler, one step of the animation loop (`moveSnake`), the body shift
    of `drawSnake`, `placeApple`, `detectAppleEat` and `detectCollision`,
    all acting on the game's state `gameVars`. Drawing, timing and the
    banners are not modelled; `Math.random` is a parameter. */
module Snake {
  import opened Wrappers
  import opened JsString

  const LengthError := "Invalid starting length; must be integer value within range 1 - 65."
  const MaxLengthError := "Invalid max length; must be integer value within range 10 - 75."

  /** `args[n] ? parseInt(args[n]) : fallback`: an absent or empty argument
      gives the default; `None` is NaN. */
  function LengthArg(args: seq<string>, n: nat, fallback: int): (r: Option<int>)
    ensures (n >= |args| || args[n] == "") ==> r == Some(fallback)
  {
    if n < |args| && args[n] != "" then ParseInt(args[n]) else Some(fallback)
  }

  /** The checks of `snake(args)` as written: each range test is a pair of
      comparisons, and NaN fails both, so a length that does not parse is
      let through. */
  function SettingsAsWritten(args: seq<string>): Result<(Option<int>, Option<int>)>
  {
    var length := LengthArg(args, 1, 10);
    var maxLength := LengthArg(args, 2, 50);
    if length.Some? && (length.value > 65 || length.value < 1) then Err(LengthError)
    else if maxLength.Some? && (maxLength.value > 75 || maxLength.value < 10) then Err(MaxLengthError)
    else Ok((length, maxLength))
  }

  /** The checks `snake(args)` evidently intends: the starting length must
      be an integer in 1..65 and the maximum length one in 10..75. */
  function Settings(args: seq<string>): (r: Result<(int, int)>)
    ensures var length := LengthArg(args, 1, 10);
      var maxLength := LengthArg(args, 2, 50);
      && (r.Ok? <==> length.Some? && 1 <= length.value <= 65 && maxLength.Some? && 10 <= maxLength.value <= 75)
      && (r.Ok? ==> r.value == (length.value, maxLength.value))
      && (!(length.Some? && 1 <= length.value <= 65) ==> r == Err(LengthError))
      && (length.Some? && 1 <= length.value <= 65 && !(maxLength.Some? && 10 <= maxLength.value <= 75)
          ==> r == Err(MaxLengthError))
  {
    var length := LengthArg(args, 1, 10);
    var maxLength := LengthArg(args, 2, 50);
    if length.None? || length.value > 65 || length.value < 1 then Err(LengthError)
    else if maxLength.None? || maxLength.value > 75 || maxLength.value < 10 then Err(MaxLengthError)
    else Ok((length.value, maxLength.value))
  }

  /** `SNAKE x` starts a game whose length is NaN as written; the intended
      check refuses it. */
  lemma SettingsFinding()
    ensures SettingsAsWritten(["SNAKE", "x"]) == Ok((None, Some(50)))
    ensures Settings(["SNAKE", "x"]) == Err(LengthError)
  {
    assert TrimStart("x") == "x";
    assert DigitPrefix("x", 10) == 0;
  }

  /** On arguments that parse, or are absent, the two agree. */
  lemma SettingsAgree(args: seq<string>)
    requires LengthArg(args, 1, 10).Some? && LengthArg(args, 2, 50).Some?
    ensures SettingsAsWritten(args).Ok? <==> Settings(args).Ok?
    ensures Settings(args).Err? ==> SettingsAsWritten(args) == Err(Settings(args).error)
    ensures Settings(args).Ok? ==>
      SettingsAsWritten(args) == Ok((Some(Settings(args).value.0), Some(Settings(args).value.1)))
  {
  }

  /** `keyboardInput` and `lastKnown`. */
  datatype Direction = W | S | A | D

  function Opposite(d: Direction): Direction
  {
    match d
    case W => S
    case S => W
    case A => D
    case D => A
  }

  /** The direction key a key code stands for: the arrows always, the
      letters unless the input is limited. */
  function KeyDirection(keyCode: int, limit: bool): (r: Option<Direction>)
    ensures r.Some? ==> keyCode in {87, 38, 83, 40, 65, 37, 68, 39}
    ensures keyCode in {38, 40, 37, 39} ==> r.Some?
  {
    if keyCode == 38 || (keyCode == 87 && !limit) then Some(W)
    else if keyCode == 40 || (keyCode == 83 && !limit) then Some(S)
    else if keyCode == 37 || (keyCode == 65 && !limit) then Some(A)
    else if keyCode == 39 || (keyCode == 68 && !limit) then Some(D)
    else None
  }

  /** A key press in direction `to`: taken only when it is neither the
      current direction nor its opposite; the current one becomes
      `lastKnown`. Answers the new (`keyboardInput`, `lastKnown`). */
  function Turn(input: Direction, lastKnown: Direction, to: Direction): (r: (Direction, Direction))
    ensures r.0 != input <==> to != input && to != Opposite(input)
    ensures r.0 != input ==> r == (to, input)
    ensures r.0 == input ==> r.1 == lastKnown
  {
    if input != to && input != Opposite(to) then (to, input) else (input, lastKnown)
  }

  /** A turn never leaves `lastKnown` opposite to the direction of travel,
      so the guard `moveSnake` puts on `lastKnown` never skips a move. */
  lemma TurnNeverReverses(input: Direction, lastKnown: Direction, to: Direction)
    requires lastKnown != Opposite(input)
    ensures Turn(input, lastKnown, to).1 != Opposite(Turn(input, lastKnown, to).0)
  {
  }

  /** The field the head may occupy: inside the border. */
  predicate InField(x: int, y: int, columns: int, rows: int)
  {
    2 <= x <= columns - 3 && 2 <= y <= rows - 3
  }

  function Delta(d: Direction): (int, int)
  {
    match d
    case W => (0, -1)
    case S => (0, 1)
    case A => (-1, 0)
    case D => (1, 0)
  }

  /** The movement of `moveSnake`: the head's next position, or `None`
      when the step would cross the border and the game is over. The step
      is skipped when `lastKnown` is the opposite direction. */
  function Stepped(x: int, y: int, input: Direction, lastKnown: Direction, columns: int, rows: int): Option<(int, int)>
  {
    match input
    case W => if y > 2 then Some(if lastKnown != S then (x, y - 1) else (x, y)) else None
    case S => if y < rows - 3 then Some(if lastKnown != W then (x, y + 1) else (x, y)) else None
    case A => if x > 2 then Some(if lastKnown != D then (x - 1, y) else (x, y)) else None
    case D => if x < columns - 3 then Some(if lastKnown != A then (x + 1, y) else (x, y)) else None
  }

  /** From inside the field, the game ends exactly when the step would
      leave it; otherwise the head moves one cell in the direction of
      travel and stays inside. */
  lemma StepStaysInField(x: int, y: int, input: Direction, lastKnown: Direction, columns: int, rows: int)
    requires InField(x, y, columns, rows) && lastKnown != Opposite(input)
    ensures var next := (x + Delta(input).0, y + Delta(input).1);
      && (Stepped(x, y, input, lastKnown, columns, rows).None? <==> !InField(next.0, next.1, columns, rows))
      && (Stepped(x, y, input, lastKnown, columns, rows).Some? ==> Stepped(x, y, input, lastKnown, columns, rows).value == next)
  {
  }

  /** Element `i` of a JavaScript array; `None` is `undefined`, which is
      also what a read past the end gives. */
  function At(s: seq<Option<int>>, i: int): Option<int>
  {
    if 0 <= i < |s| then s[i] else None
  }

  /** Writing `prefix` over the start of `s` one element at a time, as a
      JavaScript array does: it grows when the prefix is longer. */
  function Overwrite(prefix: seq<Option<int>>, s: seq<Option<int>>): (r: seq<Option<int>>)
    ensures |r| == if |prefix| < |s| then |s| else |prefix|
    ensures forall i :: 0 <= i < |prefix| ==> r[i] == prefix[i]
    ensures forall i :: |prefix| <= i < |s| ==> r[i] == s[i]
  {
    if |prefix| < |s| then prefix + s[|prefix|..] else prefix
  }

  /** The body shift of `drawSnake` on one coordinate: the head's value
      goes first and each of the first `n - 1` old values moves one place
      back; the rest of the array is kept. */
  function Shifted(locs: seq<Option<int>>, head: int, n: int): seq<Option<int>>
    requires n >= 1
  {
    Overwrite([Some(head)] + seq(n - 1, i => At(locs, i)), locs)
  }

  /** What the shift does to each segment. */
  lemma ShiftedSegments(locs: seq<Option<int>>, head: int, n: int)
    requires n >= 1
    ensures var r := Shifted(locs, head, n);
      && |r| == (if n < |locs| then |locs| else n)
      && At(r, 0) == Some(head)
      && (forall i :: 1 <= i < n ==> At(r, i) == At(locs, i - 1))
      && (forall i :: n <= i ==> At(r, i) == At(locs, i))
  {
    var r := Shifted(locs, head, n);
    var prefix := [Some(head)] + seq(n - 1, i => At(locs, i));
    forall i | 1 <= i < n
      ensures At(r, i) == At(locs, i - 1)
    {
      assert r[i] == prefix[i];
    }
  }

  /** The two loops of `drawSnake` on one coordinate: `xTemp` is built
      from the head and the first `n - 1` old values, then written over
      the start of the array. */
  method ShiftLocs(locs: seq<Option<int>>, head: int, n: int) returns (r: seq<Option<int>>)
    requires n >= 1
    ensures r == Shifted(locs, head, n)
  {
    var temp: seq<Option<int>> := [Some(head)];
    var i := 0;
    while i < n - 1
      invariant 0 <= i <= n - 1
      invariant temp == [Some(head)] + seq(i, k => At(locs, k))
    {
      temp := temp + [At(locs, i)];
      i := i + 1;
    }
    r := locs;
    i := 0;
    while i < n
      invariant 0 <= i <= n && |temp| == n
      invariant r == Overwrite(temp[..i], locs)
    {
      r := if i < |r| then r[i := temp[i]] else r + [temp[i]];
      i := i + 1;
    }
    assert temp[..i] == temp;
  }

  /** Every stored location is a number from `lo` to `hi`: the arrays
      hold no `undefined` below their length. */
  predicate Segments(locs: seq<Option<int>>, lo: int, hi: int)
  {
    forall i :: 0 <= i < |locs| ==> locs[i].Some? && lo <= locs[i].value <= hi
  }

  /** A shift that reads only stored locations keeps them all numbers in
      range, and keeps the array's length. */
  lemma ShiftedSegmentsInRange(locs: seq<Option<int>>, head: int, n: int, lo: int, hi: int)
    requires 1 <= n <= |locs| && Segments(locs, lo, hi) && lo <= head <= hi
    ensures |Shifted(locs, head, n)| == |locs| && Segments(Shifted(locs, head, n), lo, hi)
  {
    var r := Shifted(locs, head, n);
    ShiftedSegments(locs, head, n);
    forall i | 0 <= i < |r|
      ensures r[i].Some? && lo <= r[i].value <= hi
    {
      assert At(r, i) == r[i];
      if 1 <= i < n {
        assert At(locs, i - 1) == locs[i - 1];
      } else if n <= i {
        assert At(locs, i) == locs[i];
      }
    }
  }

  /** The last segment `drawSnake` erases is `undefined` exactly when the
      length is past the end of the location arrays. */
  lemma LastSegmentUndefined(locs: seq<Option<int>>, n: int, lo: int, hi: int)
    requires n >= 1 && Segments(locs, lo, hi)
    ensures At(locs, n - 1).None? <==> n > |locs|
  {
  }

  /** A starting length above the maximum (`SNAKE 20 10`, say) passes
      both range checks, but the location arrays then hold only `maximum`
      entries and the last segment is `undefined`. */
  lemma LongStartUndefined(length: int, maximum: int)
    requires 1 <= length <= 65 && 10 <= maximum <= 75 && maximum < length
    ensures Settings(["SNAKE", IntToString(length), IntToString(maximum)]) == Ok((length, maximum))
    ensures At(seq(maximum, _ => Some(2)), length - 1).None?
  {
    var args := ["SNAKE", IntToString(length), IntToString(maximum)];
    LengthArgOfInt(args, 1, 10, length);
    LengthArgOfInt(args, 2, 50, maximum);
  }

  /** An argument written as the decimal text of a positive number parses to it. */
  lemma LengthArgOfInt(args: seq<string>, n: nat, fallback: int, v: int)
    requires n < |args| && args[n] == IntToString(v) && v > 0
    ensures LengthArg(args, n, fallback) == Some(v)
  {
    ParseIntToString(v);
  }

  /** Some of the first `n` segments is at (`col`, `row`). */
  predicate Occupied(xs: seq<Option<int>>, ys: seq<Option<int>>, from: int, n: int, col: int, row: int)
  {
    exists i :: from <= i < n && At(xs, i) == Some(col) && At(ys, i) == Some(row)
  }

  /** The cell of a draw of `rnd(columns - 8)` and `rnd(rows - 8)`. */
  function DrawCell(draw: (int, int)): (int, int)
  {
    (draw.0 + 4, draw.1 + 4)
  }

  /** The cell `placeApple` settles on: the first draw whose cell is not
      under one of the first `n` segments; `None` when every draw is. */
  function FirstFree(draws: seq<(int, int)>, xs: seq<Option<int>>, ys: seq<Option<int>>, n: int): Option<(int, int)>
  {
    if draws == [] then None
    else if !Occupied(xs, ys, 0, n, DrawCell(draws[0]).0, DrawCell(draws[0]).1) then Some(DrawCell(draws[0]))
    else FirstFree(draws[1..], xs, ys, n)
  }

  /** `FirstFree` finds the first free draw, and there is one exactly when
      some draw is free. */
  lemma {:induction false} FirstFreeSpec(draws: seq<(int, int)>, xs: seq<Option<int>>, ys: seq<Option<int>>, n: int)
    ensures FirstFree(draws, xs, ys, n).Some? <==>
      exists k :: 0 <= k < |draws| && !Occupied(xs, ys, 0, n, DrawCell(draws[k]).0, DrawCell(draws[k]).1)
    ensures FirstFree(draws, xs, ys, n).Some? ==> exists k :: (0 <= k < |draws|
      && FirstFree(draws, xs, ys, n).value == DrawCell(draws[k])
      && !Occupied(xs, ys, 0, n, DrawCell(draws[k]).0, DrawCell(draws[k]).1)
      && forall j :: 0 <= j < k ==> Occupied(xs, ys, 0, n, DrawCell(draws[j]).0, DrawCell(draws[j]).1))
    decreases |draws|
  {
    if draws != [] {
      var c := DrawCell(draws[0]);
      if Occupied(xs, ys, 0, n, c.0, c.1) {
        FirstFreeSpec(draws[1..], xs, ys, n);
        if FirstFree(draws, xs, ys, n).Some? {
          var k :| 0 <= k < |draws[1..]|
            && FirstFree(draws[1..], xs, ys, n).value == DrawCell(draws[1..][k])
            && !Occupied(xs, ys, 0, n, DrawCell(draws[1..][k]).0, DrawCell(draws[1..][k]).1)
            && forall j :: 0 <= j < k ==> Occupied(xs, ys, 0, n, DrawCell(draws[1..][j]).0, DrawCell(draws[1..][j]).1);
          assert draws[k + 1] == draws[1..][k];
          forall j | 0 <= j < k + 1
            ensures Occupied(xs, ys, 0, n, DrawCell(draws[j]).0, DrawCell(draws[j]).1)
          {
            if j > 0 {
              assert draws[j] == draws[1..][j - 1];
            }
          }
        } else {
          forall k | 0 <= k < |draws|
            ensures Occupied(xs, ys, 0, n, DrawCell(draws[k]).0, DrawCell(draws[k]).1)
          {
            if k > 0 {
              assert draws[k] == draws[1..][k - 1];
            }
          }
        }
      } else {
        assert FirstFree(draws, xs, ys, n).value == DrawCell(draws[0]);
      }
    }
  }

  /** What one animation frame of `moveSnake` ends with. `NoDraw` means
      the random draws given ran out before `placeApple` found a cell.
      `Failed` means `drawSnake` threw: `moveSnake`'s catch prints the
      error and resolves the game loop, while the frames already
      requested go on. */
  datatype Outcome = Paused | Over | Exited | Won | Going | NoDraw | Failed

  const AppleScoreAdder := 1
  const SleepDecrement := 5000

  /** `gameVars` for a terminal of `columns` by `rows`. */
  class Game {
    const columns: int
    const rows: int
    var x: int
    var y: int
    var xLocs: seq<Option<int>>
    var yLocs: seq<Option<int>>
    var score: int
    var snakeLength: int
    const maxLength: int
    var appleLocation: (int, int)
    var sleepTime: int
    var keyboardInput: Direction
    var lastKnown: Direction
    var pause: bool
    var exit: bool
    var collision: bool
    var winner: bool

    /** The settings are in range, the head is inside the border, the
        snake is never set to reverse, and the location arrays are at
        least `maxLength` long, of one length, and hold cells inside the
        border. The length may exceed the arrays, as `SNAKE 20 10` makes it. */
    ghost predicate Valid()
      reads this
    {
      && 30 <= columns <= 100 && 15 <= rows <= 100
      && 10 <= maxLength <= 75 && 1 <= snakeLength
      && InField(x, y, columns, rows)
      && lastKnown != Opposite(keyboardInput)
      && (winner ==> snakeLength >= maxLength)
      && |xLocs| >= maxLength && |yLocs| == |xLocs|
      && Segments(xLocs, 2, columns - 3) && Segments(yLocs, 2, rows - 3)
    }

    /** `resetVars` followed by the set-up of `snake(args)`: the settings,
        and `maxLength` copies of 2 in each location array. */
    constructor Init(columns: int, rows: int, snakeLength: int, maxLength: int)
      requires 30 <= columns <= 100 && 15 <= rows <= 100
      requires 1 <= snakeLength <= 65 && 10 <= maxLength <= 75
      ensures Valid()
      ensures this.columns == columns && this.rows == rows
      ensures this.snakeLength == snakeLength && this.maxLength == maxLength
      ensures x == 2 && y == 2 && score == 0 && sleepTime == 200000
      ensures xLocs == seq(maxLength, _ => Some(2)) && yLocs == xLocs
      ensures keyboardInput == D && lastKnown == D
      ensures !pause && !exit && !collision && !winner
    {
      this.columns, this.rows := columns, rows;
      x, y := 2, 2;
      score := 0;
      this.snakeLength, this.maxLength := snakeLength, maxLength;
      appleLocation := (0, 0);
      sleepTime := 200000;
      keyboardInput, lastKnown := D, D;
      pause, exit, collision, winner := false, false, false, false;
      var locs: seq<Option<int>> := [];
      var i := 0;
      while i < maxLength
        invariant 0 <= i <= maxLength
        invariant locs == seq(i, _ => Some(2))
      {
        locs := locs + [Some(2)];
        i := i + 1;
      }
      xLocs, yLocs := locs, locs;
    }

    /** The key handler: a direction key turns the snake (see `Turn`),
        Q or Escape ends the game, P toggles the pause. The letter keys do
        nothing while the input is limited. */
    method Key(keyCode: int, limit: bool)
      requires Valid()
      modifies this
      ensures Valid()
      ensures match KeyDirection(keyCode, limit)
        case Some(d) => (keyboardInput, lastKnown) == Turn(old(keyboardInput), old(lastKnown), d)
        case None => keyboardInput == old(keyboardInput) && lastKnown == old(lastKnown)
      ensures exit == (old(exit) || keyCode == 27 || (keyCode == 81 && !limit))
      ensures pause == (if keyCode == 80 && !limit then !old(pause) else old(pause))
      ensures x == old(x) && y == old(y) && xLocs == old(xLocs) && yLocs == old(yLocs)
      ensures snakeLength == old(snakeLength) && score == old(score) && sleepTime == old(sleepTime)
      ensures appleLocation == old(appleLocation) && collision == old(collision) && winner == old(winner)
    {
      var turn := KeyDirection(keyCode, limit);
      if turn.Some? {
        TurnNeverReverses(keyboardInput, lastKnown, turn.value);
        keyboardInput, lastKnown := Turn(keyboardInput, lastKnown, turn.value).0, Turn(keyboardInput, lastKnown, turn.value).1;
      } else if keyCode == 27 || (keyCode == 81 && !limit) {
        exit := true;
      } else if keyCode == 80 && !limit {
        pause := !pause;
      }
    }

    /** The movement of `moveSnake`: answers whether the game is over. */
    method Move() returns (over: bool)
      requires Valid()
      modifies this
      ensures Valid()
      ensures over <==> Stepped(old(x), old(y), keyboardInput, lastKnown, columns, rows).None?
      ensures !over ==> (x, y) == Stepped(old(x), old(y), keyboardInput, lastKnown, columns, rows).value
      ensures over ==> x == old(x) && y == old(y)
      ensures keyboardInput == old(keyboardInput) && lastKnown == old(lastKnown)
      ensures xLocs == old(xLocs) && yLocs == old(yLocs) && snakeLength == old(snakeLength)
      ensures score == old(score) && sleepTime == old(sleepTime) && appleLocation == old(appleLocation)
      ensures pause == old(pause) && exit == old(exit) && collision == old(collision) && winner == old(winner)
    {
      StepStaysInField(x, y, keyboardInput, lastKnown, columns, rows);
      match keyboardInput {
      case W =>
        if y > 2 {
          if lastKnown != S {
            y := y - 1;
          }
        } else {
          return true;
        }
      case S =>
        if y < rows - 3 {
          if lastKnown != W {
            y := y + 1;
          }
        } else {
          return true;
        }
      case A =>
        if x > 2 {
          if lastKnown != D {
            x := x - 1;
          }
        } else {
          return true;
        }
      case D =>
        if x < columns - 3 {
          if lastKnown != A {
            x := x + 1;
          }
        } else {
          return true;
        }
      }
      return false;
    }

    /** The body shift of `drawSnake`: when the head has left the first
        segment, the first `snakeLength` locations become the head
        followed by the old ones moved back one place. When the last
        segment is `undefined`, erasing it throws in `setCharPos` before
        anything is shifted; the answer is false then. */
    method DrawSnake() returns (drawn: bool)
      requires Valid()
      modifies this
      ensures Valid()
      ensures var moved := Some(x) != At(old(xLocs), 0) || Some(y) != At(old(yLocs), 0);
        drawn <==> !(moved && (At(old(xLocs), snakeLength - 1).None? || At(old(yLocs), snakeLength - 1).None?))
      ensures if drawn && (Some(x) != At(old(xLocs), 0) || Some(y) != At(old(yLocs), 0)) then
          xLocs == Shifted(old(xLocs), x, snakeLength) && yLocs == Shifted(old(yLocs), y, snakeLength)
        else xLocs == old(xLocs) && yLocs == old(yLocs)
      ensures x == old(x) && y == old(y) && snakeLength == old(snakeLength)
      ensures keyboardInput == old(keyboardInput) && lastKnown == old(lastKnown)
      ensures score == old(score) && sleepTime == old(sleepTime) && appleLocation == old(appleLocation)
      ensures pause == old(pause) && exit == old(exit) && collision == old(collision) && winner == old(winner)
    {
      drawn := true;
      if Some(x) != At(xLocs, 0) || Some(y) != At(yLocs, 0) {
        if At(xLocs, snakeLength - 1).None? || At(yLocs, snakeLength - 1).None? {
          return false;
        }
        LastSegmentUndefined(xLocs, snakeLength, 2, columns - 3);
        ShiftedSegmentsInRange(xLocs, x, snakeLength, 2, columns - 3);
        ShiftedSegmentsInRange(yLocs, y, snakeLength, 2, rows - 3);
        xLocs := ShiftLocs(xLocs, x, snakeLength);
        yLocs := ShiftLocs(yLocs, y, snakeLength);
      }
    }

    /** The inner loop of `placeApple`: whether one of the first
        `snakeLength` segments is at (`col`, `row`). */
    method Overlaps(col: int, row: int) returns (overlap: bool)
      ensures overlap <==> Occupied(xLocs, yLocs, 0, snakeLength, col, row)
    {
      var i := 0;
      while i < snakeLength
        invariant 0 <= i <= snakeLength || (snakeLength < 0 && i == 0)
        invariant !Occupied(xLocs, yLocs, 0, i, col, row)
      {
        if Some(col) == At(xLocs, i) && Some(row) == At(yLocs, i) {
          return true;
        }
        i := i + 1;
      }
      return false;
    }

    /** `placeApple`, drawing cells from `draws` (the results of `rnd`)
        until one is not under the snake. Answers whether one was found;
        the source draws again for ever instead. */
    method PlaceApple(draws: seq<(int, int)>) returns (placed: bool)
      requires forall k :: 0 <= k < |draws| ==> 0 <= draws[k].0 <= columns - 8 && 0 <= draws[k].1 <= rows - 8
      modifies this
      ensures placed <==> FirstFree(draws, xLocs, yLocs, snakeLength).Some?
      ensures appleLocation == if placed then FirstFree(draws, xLocs, yLocs, snakeLength).value else old(appleLocation)
      ensures placed ==> 4 <= appleLocation.0 <= columns - 4 && 4 <= appleLocation.1 <= rows - 4
      ensures placed ==> !Occupied(xLocs, yLocs, 0, snakeLength, appleLocation.0, appleLocation.1)
      ensures x == old(x) && y == old(y) && xLocs == old(xLocs) && yLocs == old(yLocs)
      ensures snakeLength == old(snakeLength) && score == old(score) && sleepTime == old(sleepTime)
      ensures keyboardInput == old(keyboardInput) && lastKnown == old(lastKnown)
      ensures pause == old(pause) && exit == old(exit) && collision == old(collision) && winner == old(winner)
    {
      var cell := FindFree(draws);
      FirstFreeSpec(draws, xLocs, yLocs, snakeLength);
      placed := cell.Some?;
      if placed {
        appleLocation := cell.value;
      }
    }

    /** The search loop of `placeApple`: the first draw whose cell is free. */
    method FindFree(draws: seq<(int, int)>) returns (cell: Option<(int, int)>)
      ensures cell == FirstFree(draws, xLocs, yLocs, snakeLength)
    {
      var k := 0;
      while k < |draws|
        invariant 0 <= k <= |draws|
        invariant FirstFree(draws[k..], xLocs, yLocs, snakeLength) == FirstFree(draws, xLocs, yLocs, snakeLength)
      {
        var col, row := draws[k].0 + 4, draws[k].1 + 4;
        var overlap := Overlaps(col, row);
        if !overlap {
          return Some((col, row));
        }
        assert draws[k..][1..] == draws[k + 1..];
        k := k + 1;
      }
      return None;
    }

    /** `detectAppleEat`: on the apple the score and the length grow; the
        game is won once the length reaches `maxLength`, otherwise a new
        apple is placed and the frames speed up. Answers false only when
        the draws ran out. */
    method DetectAppleEat(draws: seq<(int, int)>) returns (placed: bool)
      requires Valid()
      requires forall k :: 0 <= k < |draws| ==> 0 <= draws[k].0 <= columns - 8 && 0 <= draws[k].1 <= rows - 8
      modifies this
      ensures Valid()
      ensures var eats := (x, y) == old(appleLocation);
        && score == old(score) + (if eats then AppleScoreAdder else 0)
        && snakeLength == old(snakeLength) + (if eats then 1 else 0)
        && winner == (old(winner) || (eats && snakeLength >= maxLength))
        && (!eats || winner ==> appleLocation == old(appleLocation) && sleepTime == old(sleepTime) && placed)
        && (eats && !winner ==> placed == FirstFree(draws, xLocs, yLocs, snakeLength).Some?)
        && (eats && !winner && placed ==> (appleLocation == FirstFree(draws, xLocs, yLocs, snakeLength).value
              && sleepTime == old(sleepTime) - SleepDecrement))
      ensures x == old(x) && y == old(y) && xLocs == old(xLocs) && yLocs == old(yLocs)
      ensures keyboardInput == old(keyboardInput) && lastKnown == old(lastKnown)
      ensures pause == old(pause) && exit == old(exit) && collision == old(collision)
    {
      placed := true;
      if x == appleLocation.0 && y == appleLocation.1 {
        score := score + AppleScoreAdder;
        snakeLength := snakeLength + 1;
        if snakeLength >= maxLength {
          winner := true;
          return;
        }
        placed := PlaceApple(draws);
        if placed {
          sleepTime := sleepTime - SleepDecrement;
        }
      }
    }

    /** `detectCollision`: the head is on one of the segments after the
        first. */
    method DetectCollision()
      requires Valid()
      modifies this
      ensures Valid()
      ensures collision == (old(collision) || Occupied(xLocs, yLocs, 1, snakeLength, x, y))
      ensures x == old(x) && y == old(y) && xLocs == old(xLocs) && yLocs == old(yLocs)
      ensures snakeLength == old(snakeLength) && score == old(score) && sleepTime == old(sleepTime)
      ensures appleLocation == old(appleLocation) && keyboardInput == old(keyboardInput) && lastKnown == old(lastKnown)
      ensures pause == old(pause) && exit == old(exit) && winner == old(winner)
    {
      var hit := collision;
      var i := 1;
      while i < snakeLength
        invariant 1 <= i <= snakeLength
        invariant hit == (collision || Occupied(xLocs, yLocs, 1, i, x, y))
      {
        if Some(x) == At(xLocs, i) && Some(y) == At(yLocs, i) {
          hit := true;
        }
        i := i + 1;
      }
      collision := hit;
    }

    /** Every field is as it was before the call. */
    twostate predicate Unmoved()
      reads this
    {
      x == old(x) && y == old(y) && xLocs == old(xLocs) && yLocs == old(yLocs)
      && score == old(score) && snakeLength == old(snakeLength) && appleLocation == old(appleLocation)
      && sleepTime == old(sleepTime) && keyboardInput == old(keyboardInput) && lastKnown == old(lastKnown)
      && pause == old(pause) && exit == old(exit) && collision == old(collision) && winner == old(winner)
    }

    /** One frame of `moveSnake` once its sleep time has passed: pause,
        move, exit, shift the body, eat, win, collide. */
    method Frame(draws: seq<(int, int)>) returns (o: Outcome)
      requires Valid()
      requires forall k :: 0 <= k < |draws| ==> 0 <= draws[k].0 <= columns - 8 && 0 <= draws[k].1 <= rows - 8
      modifies this
      ensures Valid()
      ensures o == Paused <==> old(pause)
      ensures keyboardInput == old(keyboardInput) && lastKnown == old(lastKnown)
      ensures pause == old(pause) && exit == old(exit)
      // A paused frame, and a step out of the field, change nothing.
      ensures var step := Stepped(old(x), old(y), keyboardInput, lastKnown, columns, rows);
        old(pause) || step.None? ==> (o == Over || o == Paused) && Unmoved()
      // Otherwise the head moves; Q or Escape then ends the game at once.
      ensures var step := Stepped(old(x), old(y), keyboardInput, lastKnown, columns, rows);
        !old(pause) && step.Some? ==> (x, y) == step.value && (o == Exited <==> exit)
      ensures o == Exited || o == Failed ==> (xLocs == old(xLocs) && yLocs == old(yLocs) && snakeLength == old(snakeLength)
        && score == old(score) && sleepTime == old(sleepTime) && appleLocation == old(appleLocation)
        && collision == old(collision) && winner == old(winner))
      // Past the exit check, a moved head with an `undefined` last
      // segment makes `drawSnake` throw, and the frame ends there.
      ensures var step := Stepped(old(x), old(y), keyboardInput, lastKnown, columns, rows);
        var moved := Some(x) != At(old(xLocs), 0) || Some(y) != At(old(yLocs), 0);
        !old(pause) && step.Some? && !exit ==>
          (o == Failed <==> moved && (At(old(xLocs), old(snakeLength) - 1).None? || At(old(yLocs), old(snakeLength) - 1).None?))
      // Otherwise the frame shifts the body, eats, and either wins, runs
      // out of draws, collides or goes on.
      ensures var step := Stepped(old(x), old(y), keyboardInput, lastKnown, columns, rows);
        var moved := Some(x) != At(old(xLocs), 0) || Some(y) != At(old(yLocs), 0);
        var eats := (x, y) == old(appleLocation);
        !old(pause) && step.Some? && !exit && o != Failed ==>
          && xLocs == (if moved then Shifted(old(xLocs), x, old(snakeLength)) else old(xLocs))
          && yLocs == (if moved then Shifted(old(yLocs), y, old(snakeLength)) else old(yLocs))
          && score == old(score) + (if eats then AppleScoreAdder else 0)
          && snakeLength == old(snakeLength) + (if eats then 1 else 0)
          && winner == (old(winner) || (eats && snakeLength >= maxLength))
          && (o == Won <==> winner)
          && (!eats || winner ==> appleLocation == old(appleLocation) && sleepTime == old(sleepTime))
          && (eats && !winner ==> (o == NoDraw <==> FirstFree(draws, xLocs, yLocs, snakeLength).None?))
          && (eats && !winner && o != NoDraw ==>
                appleLocation == FirstFree(draws, xLocs, yLocs, snakeLength).value
                && sleepTime == old(sleepTime) - SleepDecrement)
          && (o != Won && o != NoDraw ==>
                collision == (old(collision) || Occupied(xLocs, yLocs, 1, snakeLength, x, y))
                && (o == Over <==> collision))
          && (o == Won || o == NoDraw ==> collision == old(collision))
      ensures o == Going ==> !collision && !winner && !exit
    {
      if pause {
        return Paused;
      }
      var over := Move();
      if over {
        return Over;
      }
      if exit {
        return Exited;
      }
      var drawn := DrawSnake();
      if !drawn {
        return Failed;
      }
      var placed := DetectAppleEat(draws);
      if !placed {
        return NoDraw;
      }
      if winner {
        return Won;
      }
      DetectCollision();
      if collision {
        return Over;
      }
      return Going;
    }
  }
}
