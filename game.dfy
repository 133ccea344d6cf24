/** The game (src/game.js): a grid shown on an n-by-n LED matrix, a cursor
    moved by the joystick, and a click that brings the cell under the cursor
    to life. The joystick and the LEDs are not part of the model: a press is
    a call of `OnPress`, and the pixels are what `OnPress` returns. */
module Games {
  import opened Utils
  import opened Life
  import opened Grids

  /** The cursor position: `x` is the row, `y` the column. */
  datatype Coords = Coords(x: int, y: int)

  /** The three LED colours: dead cell, live cell, cursor. */
  datatype Colour = Black | Blue | White

  /** A position on the n-by-n matrix. */
  predicate OnBoard(c: Coords, n: nat)
  {
    0 <= c.x < n && 0 <= c.y < n
  }

  /** How far one press in `direction` moves the row ("up" and "down") and
      the column ("left" and "right"); any other direction does not move. */
  function RowStep(direction: string): int
  {
    if direction == "up" then -1 else if direction == "down" then 1 else 0
  }

  function ColumnStep(direction: string): int
  {
    if direction == "left" then -1 else if direction == "right" then 1 else 0
  }

  /** The cursor after one press, on the torus: the step taken modulo the
      size, so that the cursor wraps around each edge. */
  function Moved(c: Coords, direction: string, n: nat): (r: Coords)
    requires n > 0
    ensures OnBoard(c, n) ==> OnBoard(r, n)
  {
    Coords((c.x + RowStep(direction)) % n, (c.y + ColumnStep(direction)) % n)
  }

  /** The cursor after `k` presses in the same direction. */
  function MovedTimes(c: Coords, direction: string, k: nat, n: nat): (r: Coords)
    requires n > 0
  {
    if k == 0 then c else Moved(MovedTimes(c, direction, k - 1, n), direction, n)
  }

  /** `k` presses in one direction move the cursor `k` steps, modulo the
      size. */
  lemma {:induction false} MovedTimesIsShift(c: Coords, direction: string, k: nat, n: nat)
    requires n > 0 && OnBoard(c, n)
    ensures MovedTimes(c, direction, k, n) ==
      Coords((c.x + k * RowStep(direction)) % n, (c.y + k * ColumnStep(direction)) % n)
  {
    if k == 0 {
      ModSelf(c.x, n);
      ModSelf(c.y, n);
    } else {
      MovedTimesIsShift(c, direction, k - 1, n);
      ShiftStep(c.x, RowStep(direction), k, n);
      ShiftStep(c.y, ColumnStep(direction), k, n);
    }
  }

  /** Pressing the same direction n times brings the cursor back to where it
      started: each row and each column is a cycle of length n. */
  lemma FullCycle(c: Coords, direction: string, n: nat)
    requires n > 0 && OnBoard(c, n)
    ensures MovedTimes(c, direction, n, n) == c
  {
    MovedTimesIsShift(c, direction, n, n);
    ModShift(c.x, RowStep(direction), n);
    ModShift(c.y, ColumnStep(direction), n);
    assert n * RowStep(direction) == RowStep(direction) * n;
    assert n * ColumnStep(direction) == ColumnStep(direction) * n;
    ModSelf(c.x, n);
    ModSelf(c.y, n);
  }

  /** Opposite presses cancel: "up" then "down", "down" then "up", "left"
      then "right", "right" then "left" each return the cursor to where it
      was. */
  lemma OppositesCancel(c: Coords, n: nat)
    requires n > 0 && OnBoard(c, n)
    ensures Moved(Moved(c, "up", n), "down", n) == c
    ensures Moved(Moved(c, "down", n), "up", n) == c
    ensures Moved(Moved(c, "left", n), "right", n) == c
    ensures Moved(Moved(c, "right", n), "left", n) == c
  {
    ModSelf(c.x, n);
    ModSelf(c.y, n);
    ModStep(c.x - 1, 1, n);
    ModStep(c.x + 1, -1, n);
    ModStep(c.y - 1, 1, n);
    ModStep(c.y + 1, -1, n);
  }

  /** A press in any other direction leaves an on-board cursor where it is. */
  lemma OtherDirectionsStay(c: Coords, direction: string, n: nat)
    requires n > 0 && OnBoard(c, n)
    requires direction != "up" && direction != "down" && direction != "left" && direction != "right"
    ensures Moved(c, direction, n) == c
  {
    ModSelf(c.x, n);
    ModSelf(c.y, n);
  }

  /** What `paintGrid()` hands to the LEDs for a board, a cursor and the
      cursor flag: one colour per cell in row-major order, white under a
      displayed cursor, otherwise blue for a live cell and black for a dead
      one. */
  function Paint(b: Board, cursor: Coords, displayCursor: bool): (pixels: seq<Colour>)
    requires Square(b)
    ensures |pixels| == |b| * |b|
    ensures forall i, j :: 0 <= i < |b| && 0 <= j < |b| ==>
      RowMajor(i, j, |b|) < |pixels| &&
      pixels[RowMajor(i, j, |b|)] ==
        if displayCursor && cursor == Coords(i, j) then White else if b[i][j] then Blue else Black
  {
    var colourOf := (value, x: nat, y: nat) =>
      if displayCursor && cursor == Coords(x, y) then White else if value then Blue else Black;
    GridReducerOncePerCell(b, |b|, colourOf);
    Concat(GridReducer(b, colourOf))
  }

  /** Away from a displayed cursor the pixels tell the same story as the
      grid's encoding: a blue pixel wherever the encoding has a '1', black
      wherever it has a '0'. With the cursor hidden this holds everywhere. */
  lemma PaintAgreesWithEncode(b: Board, cursor: Coords, displayCursor: bool, k: nat)
    requires Square(b) && k < |b| * |b|
    requires displayCursor ==> k != RowMajor(cursor.x, cursor.y, |b|)
    ensures Paint(b, cursor, displayCursor)[k] == if Encode(b)[k] == '1' then Blue else Black
  {
    var i, j := Unflatten(k, |b|);
    if displayCursor && cursor == Coords(i, j) {
      assert false;
    }
  }

  class Game {
    /** GRID_SIZE, the side of the LED matrix. */
    const size: nat
    /** The grid shown on the LEDs. */
    const g: Grid
    /** The cursor. */
    var currentCoords: Coords
    /** Whether the cursor is drawn. */
    var displayCursor: bool

    /** The grid has the game's size and the cursor is on it. */
    ghost predicate Valid()
      reads this, g
    {
      g.Valid() && g.gridSize == size && OnBoard(currentCoords, size)
    }

    /** `new Game(...)`: a blank grid, the cursor at (0, 0) and displayed. */
    constructor (gridSize: nat)
      requires gridSize > 0
      ensures Valid() && fresh(g) && fresh(g.Repr)
      ensures size == gridSize && g.State() == Blank(gridSize)
      ensures currentCoords == Coords(0, 0) && displayCursor
    {
      size := gridSize;
      g := new Grid(gridSize);
      currentCoords := Coords(0, 0);
      displayCursor := true;
    }

    /** `moveCursor(direction)`: one step up, down, left or right, wrapping
        at the edges; any other direction changes nothing. */
    method MoveCursor(direction: string)
      requires Valid()
      modifies this`currentCoords
      ensures Valid()
      ensures currentCoords == Moved(old(currentCoords), direction, size)
    {
      var x, y := currentCoords.x, currentCoords.y;
      if direction == "up" {
        currentCoords := currentCoords.(x := if x - 1 >= 0 then x - 1 else size - 1);
      } else if direction == "down" {
        currentCoords := currentCoords.(x := if x + 1 < size then x + 1 else 0);
      } else if direction == "left" {
        currentCoords := currentCoords.(y := if y - 1 >= 0 then y - 1 else size - 1);
      } else if direction == "right" {
        currentCoords := currentCoords.(y := if y + 1 < size then y + 1 else 0);
      }
      WrapAround(x, size);
      WrapAround(y, size);
    }

    /** `paintGrid()`: the pixels for the current grid and cursor. */
    function PaintGrid(): (pixels: seq<Colour>)
      reads this, g, g.Repr
      requires Valid()
      ensures pixels == Paint(g.State(), currentCoords, displayCursor)
      ensures |pixels| == size * size
      ensures displayCursor ==>
        RowMajor(currentCoords.x, currentCoords.y, size) < |pixels| &&
        pixels[RowMajor(currentCoords.x, currentCoords.y, size)] == White
    {
      var b := g.State();
      var pixels := Paint(b, currentCoords, displayCursor);
      pixels
    }

    /** The joystick's press handler: a click brings the cell under the
        cursor to life, any other press moves the cursor; the grid is then
        painted again. */
    method OnPress(val: string) returns (pixels: seq<Colour>)
      requires Valid()
      modifies this`currentCoords, g.Repr
      ensures Valid()
      ensures val == "click" ==>
        currentCoords == old(currentCoords) &&
        g.State() == old(g.State())[currentCoords.x := old(g.State())[currentCoords.x][currentCoords.y := true]]
      ensures val != "click" ==>
        currentCoords == Moved(old(currentCoords), val, size) && g.State() == old(g.State())
      ensures pixels == PaintGrid()
    {
      if val == "click" {
        g.RiseCell(currentCoords.x, currentCoords.y);
      } else {
        MoveCursor(val);
      }
      pixels := PaintGrid();
    }
  }
}
