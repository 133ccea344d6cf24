/** The Game of Life on a square torus, on board VALUES: the meaning that
    the grid of src/grid.js gives to its cells. A board is the matrix of
    the cells' alive flags, indexed [row][column]. The Grid class (module
    Grids) is specified against these functions. */
module Life {
  import opened Utils

  type Board = seq<seq<bool>>

  /** An n-by-n board. */
  ghost predicate Square(b: Board)
  {
    Rectangular(b, |b|)
  }

  /** The board of a freshly built n-by-n grid. */
  function Blank(n: nat): (b: Board)
    ensures |b| == n && Square(b)
    ensures forall i, j :: 0 <= i < n && 0 <= j < n ==> !b[i][j]
  {
    CreateGrid(n, _ => false)
  }

  /** 1 when the cell at row `i`, column `j` of the torus is alive, both
      indices taken modulo the size (Dafny's `%` never yields a negative). */
  function LiveAt(b: Board, i: int, j: int): nat
    requires Square(b) && |b| > 0
  {
    if b[i % |b|][j % |b|] then 1 else 0
  }

  /** The eight offsets from a cell to its neighbours. */
  const Around: seq<(int, int)> := [(-1, -1), (-1, 0), (-1, 1), (0, -1), (0, 1), (1, -1), (1, 0), (1, 1)]

  /** The live cells among the first `k` of the eight neighbours of (i, j). */
  function CountAround(b: Board, i: int, j: int, k: nat): (r: nat)
    requires Square(b) && 0 <= i < |b| && 0 <= j < |b| && k <= |Around|
    ensures r <= k
  {
    if k == 0 then 0 else CountAround(b, i, j, k - 1) + LiveAt(b, i + Around[k - 1].0, j + Around[k - 1].1)
  }

  /** The live cells among the eight cells around (i, j) on the torus. On a
      board smaller than 3 by 3 some of the eight offsets land on the same
      cell, or on (i, j) itself, and are counted as often as they occur. */
  function Neighbours(b: Board, i: int, j: int): (r: nat)
    requires Square(b) && 0 <= i < |b| && 0 <= j < |b|
    ensures r <= 8
  {
    CountAround(b, i, j, |Around|)
  }

  /** The neighbour count written out offset by offset. */
  lemma NeighboursSum(b: Board, i: int, j: int)
    requires Square(b) && 0 <= i < |b| && 0 <= j < |b|
    ensures Neighbours(b, i, j) ==
      LiveAt(b, i - 1, j - 1) + LiveAt(b, i - 1, j) + LiveAt(b, i - 1, j + 1) +
      LiveAt(b, i, j - 1)                           + LiveAt(b, i, j + 1) +
      LiveAt(b, i + 1, j - 1) + LiveAt(b, i + 1, j) + LiveAt(b, i + 1, j + 1)
  {
    assert CountAround(b, i, j, 2) == LiveAt(b, i - 1, j - 1) + LiveAt(b, i - 1, j);
    assert CountAround(b, i, j, 4) == CountAround(b, i, j, 2) + LiveAt(b, i - 1, j + 1) + LiveAt(b, i, j - 1);
    assert CountAround(b, i, j, 6) == CountAround(b, i, j, 4) + LiveAt(b, i, j + 1) + LiveAt(b, i + 1, j - 1);
    assert CountAround(b, i, j, 8) == CountAround(b, i, j, 6) + LiveAt(b, i + 1, j) + LiveAt(b, i + 1, j + 1);
  }

  /** The B3/S23 rule: alive next when there are exactly three live
      neighbours, or when alive now with exactly two. */
  predicate Rule(alive: bool, aliveNeighbours: int)
  {
    aliveNeighbours == 3 || (alive && aliveNeighbours == 2)
  }

  /** The rule as the grid's branches state it: a live cell with fewer
      than two or more than three live neighbours dies, a dead cell with
      exactly three comes alive, and every other cell keeps its state. */
  lemma RuleBranches(alive: bool, aliveNeighbours: int)
    ensures alive && aliveNeighbours < 2 ==> !Rule(alive, aliveNeighbours)
    ensures alive && aliveNeighbours > 3 ==> !Rule(alive, aliveNeighbours)
    ensures !alive && aliveNeighbours == 3 ==> Rule(alive, aliveNeighbours)
    ensures !(alive && aliveNeighbours < 2) && !(alive && aliveNeighbours > 3) && !(!alive && aliveNeighbours == 3) ==>
      Rule(alive, aliveNeighbours) == alive
  {
  }

  /** Decide cell (i, j) from the board as it is at that moment. */
  function Visit(b: Board, i: nat, j: nat): (r: Board)
    requires Square(b) && i < |b| && j < |b|
    ensures |r| == |b| && Square(r)
  {
    b[i := b[i][j := Rule(b[i][j], Neighbours(b, i, j))]]
  }

  /** The board after cells (i, 0), ..., (i, j - 1) have been decided in
      that order, each on the board left by the previous one. */
  function SweepRow(b: Board, i: nat, j: nat): (r: Board)
    requires Square(b) && i < |b| && j <= |b|
    ensures |r| == |b| && Square(r)
    decreases j
  {
    if j == 0 then b else Visit(SweepRow(b, i, j - 1), i, j - 1)
  }

  /** The board after every cell of rows 0, ..., i - 1 has been decided,
      row by row. */
  function Sweep(b: Board, i: nat): (r: Board)
    requires Square(b) && i <= |b|
    ensures |r| == |b| && Square(r)
  {
    if i == 0 then b else SweepRow(Sweep(b, i - 1), i - 1, |b|)
  }

  /** The next generation as the grid computes it: one row-major pass that
      decides each cell in place, so that later cells already see the new
      state of earlier ones. */
  function NewGeneration(b: Board): (r: Board)
    requires Square(b)
    ensures |r| == |b| && Square(r)
  {
    Sweep(b, |b|)
  }

  /** Conway's simultaneous generation, every cell decided on the old board;
      the grid does NOT compute this (see `GridExamples.GoldenSeedTick`). */
  function SimultaneousGeneration(b: Board): (r: Board)
    requires Square(b)
    ensures |r| == |b| && Square(r)
  {
    seq(|b|, i requires 0 <= i < |b| =>
      seq(|b|, j requires 0 <= j < |b| => Rule(b[i][j], Neighbours(b, i, j))))
  }

  /** (p, q) comes before (i, j) in row-major order. */
  predicate Before(p: int, q: int, i: int, j: int)
  {
    p < i || (p == i && q < j)
  }

  /** The board whose cells before (i, j) come from `next` and whose other
      cells come from `prev`. */
  function Mixed(next: Board, prev: Board, i: int, j: int): (r: Board)
    requires |next| == |prev| && Square(next) && Square(prev)
    ensures |r| == |prev| && Square(r)
  {
    seq(|prev|, p requires 0 <= p < |prev| =>
      seq(|prev|, q requires 0 <= q < |prev| => if Before(p, q, i, j) then next[p][q] else prev[p][q]))
  }

  // The frame facts of a pass: which cells a partial pass has touched.

  lemma {:induction false} SweepRowUntouched(b: Board, i: nat, j: nat, p: nat, q: nat)
    requires Square(b) && i < |b| && j <= |b| && p < |b| && q < |b|
    requires p != i || q >= j
    ensures SweepRow(b, i, j)[p][q] == b[p][q]
  {
    if j > 0 {
      SweepRowUntouched(b, i, j - 1, p, q);
    }
  }

  lemma {:induction false} SweepRowKeeps(b: Board, i: nat, j: nat, q: nat)
    requires Square(b) && i < |b| && q < j <= |b|
    ensures SweepRow(b, i, j)[i][q] == SweepRow(b, i, q + 1)[i][q]
  {
    if j > q + 1 {
      SweepRowKeeps(b, i, j - 1, q);
    }
  }

  lemma {:induction false} SweepUntouched(b: Board, i: nat, p: nat, q: nat)
    requires Square(b) && i <= p < |b| && q < |b|
    ensures Sweep(b, i)[p][q] == b[p][q]
  {
    if i > 0 {
      SweepUntouched(b, i - 1, p, q);
      SweepRowUntouched(Sweep(b, i - 1), i - 1, |b|, p, q);
    }
  }

  lemma {:induction false} SweepKeeps(b: Board, i: nat, p: nat, q: nat)
    requires Square(b) && p < i <= |b| && q < |b|
    ensures Sweep(b, i)[p][q] == Sweep(b, p + 1)[p][q]
  {
    if i > p + 1 {
      SweepKeeps(b, i - 1, p, q);
      SweepRowUntouched(Sweep(b, i - 1), i - 1, |b|, p, q);
    }
  }

  /** The board on which the pass decides cell (i, j) is the mix of the
      FINAL state of every earlier cell and the ORIGINAL state of (i, j) and
      every later cell. */
  lemma SweepSeesMix(b: Board, i: nat, j: nat)
    requires Square(b) && i < |b| && j < |b|
    ensures SweepRow(Sweep(b, i), i, j) == Mixed(NewGeneration(b), b, i, j)
  {
    var n := |b|;
    var pre := SweepRow(Sweep(b, i), i, j);
    var mix := Mixed(NewGeneration(b), b, i, j);
    forall p, q | 0 <= p < n && 0 <= q < n
      ensures pre[p][q] == mix[p][q]
    {
      if p < i {
        SweepRowUntouched(Sweep(b, i), i, j, p, q);
        SweepKeeps(b, i, p, q);
        SweepKeeps(b, n, p, q);
      } else if p == i && q < j {
        SweepRowKeeps(Sweep(b, i), i, j, q);
        SweepKeeps(b, n, i, q);
        SweepRowKeeps(Sweep(b, i), i, n, q);
      } else {
        SweepRowUntouched(Sweep(b, i), i, j, p, q);
        SweepUntouched(b, i, p, q);
      }
    }
    assert forall p :: 0 <= p < n ==> pre[p] == mix[p];
  }

  /** Cell (i, j) of the next generation follows B3/S23 from its ORIGINAL
      state, with its neighbours counted on the board where every cell
      before it (row-major) already holds its next-generation state and
      every cell after it still holds its original state. */
  lemma NewGenerationCell(b: Board, i: nat, j: nat)
    requires Square(b) && i < |b| && j < |b|
    ensures NewGeneration(b)[i][j] == Rule(b[i][j], Neighbours(Mixed(NewGeneration(b), b, i, j), i, j))
  {
    var n := |b|;
    var pre := SweepRow(Sweep(b, i), i, j);
    SweepKeeps(b, n, i, j);
    SweepRowKeeps(Sweep(b, i), i, n, j);
    assert NewGeneration(b)[i][j] == Rule(pre[i][j], Neighbours(pre, i, j));
    SweepRowUntouched(Sweep(b, i), i, j, i, j);
    SweepUntouched(b, i, i, j);
    SweepSeesMix(b, i, j);
  }

  /** The '0'/'1' character of one cell. */
  function Digit(alive: bool): char
  {
    if alive then '1' else '0'
  }

  /** `encode()`: the '0'/'1' map of the grid, flattened one level and
      joined; on an n-by-n board, n * n characters in row-major order. */
  function Encode(b: Board): (s: string)
    ensures Square(b) ==> |s| == |b| * |b|
    ensures Square(b) ==> forall i, j :: 0 <= i < |b| && 0 <= j < |b| ==>
      RowMajor(i, j, |b|) < |s| && s[RowMajor(i, j, |b|)] == Digit(b[i][j])
  {
    var digitOf := (cell, i, j) => Digit(cell);
    assert Square(b) ==> |Concat(GridReducer(b, digitOf))| == |b| * |b| by {
      if Square(b) { GridReducerOncePerCell(b, |b|, digitOf); }
    }
    assert Square(b) ==> forall i, j :: 0 <= i < |b| && 0 <= j < |b| ==>
      RowMajor(i, j, |b|) < |Concat(GridReducer(b, digitOf))| &&
      Concat(GridReducer(b, digitOf))[RowMajor(i, j, |b|)] == Digit(b[i][j]) by {
      if Square(b) { GridReducerOncePerCell(b, |b|, digitOf); }
    }
    Concat(GridReducer(b, digitOf))
  }

  /** The live cells of one row, the inner `reduce` of `findAliveCells`. */
  function RowAlive(row: seq<bool>): (r: nat)
    ensures r <= |row|
  {
    if |row| == 0 then 0 else RowAlive(row[..|row| - 1]) + (if row[|row| - 1] then 1 else 0)
  }

  /** `findAliveCells()`: the outer `reduce`, summing the rows. */
  function FindAliveCells(b: Board): (r: nat)
  {
    if |b| == 0 then 0 else FindAliveCells(b[..|b| - 1]) + RowAlive(b[|b| - 1])
  }

  /** The occurrences of a character in a string. */
  function Occurrences(s: string, c: char): nat
  {
    if |s| == 0 then 0 else Occurrences(s[..|s| - 1], c) + (if s[|s| - 1] == c then 1 else 0)
  }

  /** An n-by-n board has between 0 and n * n live cells. */
  lemma {:induction false} FindAliveCellsBound(b: Board, width: nat)
    requires Rectangular(b, width)
    ensures FindAliveCells(b) <= |b| * width
  {
    if |b| > 0 {
      FindAliveCellsBound(b[..|b| - 1], width);
    }
  }

  lemma {:induction false} OccurrencesAppend(s: string, t: string, c: char)
    ensures Occurrences(s + t, c) == Occurrences(s, c) + Occurrences(t, c)
  {
    if |t| > 0 {
      assert (s + t)[..|s + t| - 1] == s + t[..|t| - 1];
      assert (s + t)[|s + t| - 1] == t[|t| - 1];
      OccurrencesAppend(s, t[..|t| - 1], c);
    } else {
      assert s + t == s;
    }
  }

  lemma {:induction false} OnesOfRow(row: seq<bool>)
    ensures Occurrences(seq(|row|, j requires 0 <= j < |row| => Digit(row[j])), '1') == RowAlive(row)
  {
    if |row| > 0 {
      var m := |row| - 1;
      var digits := seq(|row|, j requires 0 <= j < |row| => Digit(row[j]));
      assert digits[..m] == seq(m, j requires 0 <= j < m => Digit(row[..m][j]));
      OnesOfRow(row[..m]);
    }
  }

  /** The live-cell count is the number of '1's in the encoding. */
  lemma {:induction false} FindAliveCellsCountsOnes(b: Board)
    ensures FindAliveCells(b) == Occurrences(Encode(b), '1')
  {
    if |b| > 0 {
      var m := |b| - 1;
      var f := (cell, i, j) => Digit(cell);
      var digits := GridReducer(b, f);
      assert digits[..m] == GridReducer(b[..m], f);
      assert digits[m] == seq(|b[m]|, j requires 0 <= j < |b[m]| => Digit(b[m][j]));
      FindAliveCellsCountsOnes(b[..m]);
      OccurrencesAppend(Concat(digits[..m]), digits[m], '1');
      OnesOfRow(b[m]);
    }
  }

  lemma {:induction false} RowAliveNone(row: seq<bool>)
    requires forall j :: 0 <= j < |row| ==> !row[j]
    ensures RowAlive(row) == 0
  {
    if |row| > 0 {
      RowAliveNone(row[..|row| - 1]);
    }
  }

  /** A board without a live cell counts no live cells. */
  lemma {:induction false} FindAliveCellsNone(b: Board)
    requires forall i, j :: 0 <= i < |b| && 0 <= j < |b[i]| ==> !b[i][j]
    ensures FindAliveCells(b) == 0
  {
    if |b| > 0 {
      FindAliveCellsNone(b[..|b| - 1]);
      RowAliveNone(b[|b| - 1]);
    }
  }

  /** A freshly built n-by-n grid encodes as n * n zeros and has no live
      cell. */
  lemma BlankEncodesZeros(n: nat)
    ensures Encode(Blank(n)) == seq(n * n, _ => '0')
    ensures FindAliveCells(Blank(n)) == 0
  {
    var s := Encode(Blank(n));
    forall k | 0 <= k < n * n
      ensures s[k] == '0'
    {
      var i, j := Unflatten(k, n);
    }
    FindAliveCellsNone(Blank(n));
  }

  /** On a 1-by-1 torus all eight offsets land on the cell itself. */
  lemma SingleCellCountsItself(b: Board)
    requires |b| == 1 && Square(b)
    ensures Neighbours(b, 0, 0) == if b[0][0] then 8 else 0
  {
    NeighboursSum(b, 0, 0);
  }
}
