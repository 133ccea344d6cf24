/** The boards of the grid's own test cases (src/grid.test.js), worked
    through on the model. The golden case is the one that shows what the
    in-place pass computes: its expected result is the row-major pass of
    `Life.NewGeneration`, not Conway's simultaneous step. */
module GridExamples {
  import opened Utils
  import opened Life

  /** The golden seed: one generation of the in-place pass gives the board
      the test expects, whose encoding is "0000101010100000" with four live
      cells. Cell (2, 1) shows the difference from the simultaneous step: on
      the seed it has two live neighbours and survives, but by the time the
      pass reaches it, (1, 0) and (1, 2) have just come alive, so it counts
      four and dies. */
  lemma GoldenSeedTick(s: Board)
    requires s == [[true, false, false, true],
                   [false, false, false, false],
                   [true, true, true, true],
                   [false, false, false, false]]
    ensures Square(s)
    ensures NewGeneration(s) ==
      [[false, false, false, false],
       [true, false, true, false],
       [true, false, true, false],
       [false, false, false, false]]
    ensures Encode(NewGeneration(s)) == "0000101010100000"
    ensures FindAliveCells(NewGeneration(s)) == 4
    ensures SimultaneousGeneration(s)[2][1] && !NewGeneration(s)[2][1]
  {
    Row0(Sweep(s, 0));
    Row1(Sweep(s, 1));
    Row2(Sweep(s, 2));
    Row3(Sweep(s, 3));
    GoldenResult(NewGeneration(s));
    NeighboursSum(s, 2, 1);
    assert LiveAt(s, 1, 0) + LiveAt(s, 1, 1) + LiveAt(s, 1, 2) +
      LiveAt(s, 2, 0) + LiveAt(s, 2, 2) +
      LiveAt(s, 3, 0) + LiveAt(s, 3, 1) + LiveAt(s, 3, 2) == 2;
  }

  /** The encoding and the live-cell count of the golden result. */
  lemma GoldenResult(b: Board)
    requires b == [[false, false, false, false],
                   [true, false, true, false],
                   [true, false, true, false],
                   [false, false, false, false]]
    ensures Encode(b) == "0000101010100000"
    ensures FindAliveCells(b) == 4
  {
    GoldenEncoding(b);
    FourRows(b);
  }

  lemma GoldenEncoding(b: Board)
    requires b == [[false, false, false, false],
                   [true, false, true, false],
                   [true, false, true, false],
                   [false, false, false, false]]
    ensures Encode(b) == "0000101010100000"
  {
    assert Square(b);
    var s := Encode(b);
    forall i, j | 0 <= i < 4 && 0 <= j < 4
      ensures s[RowMajor(i, j, 4)] == "0000101010100000"[RowMajor(i, j, 4)]
    {
    }
    forall k | 0 <= k < 16
      ensures s[k] == "0000101010100000"[k]
    {
      var i, j := Unflatten(k, 4);
    }
  }

  /** The neighbour counts the grid's test expects: 2 around the corner
      (0, 0), whose wrapped neighbours are dead, and 8 around (1, 1), which
      is ringed by live cells. */
  lemma CountAliveNeighboursExample(b: Board)
    requires b == [[true, true, true, false],
                   [true, false, true, false],
                   [true, true, true, false],
                   [false, false, false, false]]
    ensures Square(b)
    ensures Neighbours(b, 0, 0) == 2
    ensures Neighbours(b, 1, 1) == 8
  {
    assert Square(b);
    NeighboursSum(b, 0, 0);
    NeighboursSum(b, 1, 1);
    assert LiveAt(b, -1, -1) + LiveAt(b, -1, 0) + LiveAt(b, -1, 1) +
      LiveAt(b, 0, -1) + LiveAt(b, 0, 1) +
      LiveAt(b, 1, -1) + LiveAt(b, 1, 0) + LiveAt(b, 1, 1) == 2;
    assert LiveAt(b, 0, 0) + LiveAt(b, 0, 1) + LiveAt(b, 0, 2) +
      LiveAt(b, 1, 0) + LiveAt(b, 1, 2) +
      LiveAt(b, 2, 0) + LiveAt(b, 2, 1) + LiveAt(b, 2, 2) == 8;
  }

  /** A fresh 4-by-4 grid encodes as sixteen zeros. */
  lemma FreshGridEncoding(n: nat)
    requires n == 4
    ensures Encode(Blank(n)) == "0000000000000000"
    ensures FindAliveCells(Blank(n)) == 0
  {
    BlankEncodesZeros(n);
  }

  /** One full row of four live cells counts four. */
  lemma FindAliveCellsExample(b: Board)
    requires b == [[true, true, true, true],
                   [false, false, false, false],
                   [false, false, false, false],
                   [false, false, false, false]]
    ensures FindAliveCells(b) == 4
  {
    FourRows(b);
  }

  /** 1 for a live cell, 0 for a dead one. */
  function Count(alive: bool): nat
  {
    if alive then 1 else 0
  }

  /** The live-cell count of a 4-by-4 board, spelled out cell by cell. */
  lemma FourRows(b: Board)
    requires |b| == 4 && Rectangular(b, 4)
    ensures FindAliveCells(b) ==
      Count(b[0][0]) + Count(b[0][1]) + Count(b[0][2]) + Count(b[0][3]) +
      Count(b[1][0]) + Count(b[1][1]) + Count(b[1][2]) + Count(b[1][3]) +
      Count(b[2][0]) + Count(b[2][1]) + Count(b[2][2]) + Count(b[2][3]) +
      Count(b[3][0]) + Count(b[3][1]) + Count(b[3][2]) + Count(b[3][3])
  {
    FourCells(b[0]);
    FourCells(b[1]);
    FourCells(b[2]);
    FourCells(b[3]);
    assert b[..1][..0] == [];
    assert FindAliveCells(b[..1]) == RowAlive(b[0]);
    assert b[..2][..1] == b[..1];
    assert FindAliveCells(b[..2]) == FindAliveCells(b[..1]) + RowAlive(b[1]);
    assert b[..3][..2] == b[..2];
    assert FindAliveCells(b[..3]) == FindAliveCells(b[..2]) + RowAlive(b[2]);
    assert b[..4][..3] == b[..3] && b[..4] == b;
  }

  lemma FourCells(row: seq<bool>)
    requires |row| == 4
    ensures RowAlive(row) == Count(row[0]) + Count(row[1]) + Count(row[2]) + Count(row[3])
  {
    assert row[..1][..0] == [];
    assert RowAlive(row[..1]) == Count(row[0]);
    assert row[..2][..1] == row[..1];
    assert RowAlive(row[..2]) == RowAlive(row[..1]) + Count(row[1]);
    assert row[..3][..2] == row[..2];
    assert RowAlive(row[..3]) == RowAlive(row[..2]) + Count(row[2]);
    assert row[..4][..3] == row[..3] && row[..4] == row;
  }

  // The golden pass, one visited cell at a time.

  /** Cell (0, 0) has 1 live neighbour and is not alive after its visit. */
  lemma Visit00(b: Board)
    requires b == [[true, false, false, true],
                   [false, false, false, false],
                   [true, true, true, true],
                   [false, false, false, false]]
    ensures Square(b)
    ensures Visit(b, 0, 0) ==
      [[false, false, false, true],
       [false, false, false, false],
       [true, true, true, true],
       [false, false, false, false]]
  {
    assert Square(b);
    NeighboursSum(b, 0, 0);
    assert LiveAt(b, -1, -1) + LiveAt(b, -1, 0) + LiveAt(b, -1, 1) +
      LiveAt(b, 0, -1) + LiveAt(b, 0, 1) +
      LiveAt(b, 1, -1) + LiveAt(b, 1, 0) + LiveAt(b, 1, 1) == 1;
    assert b[0][0 := false] == [false, false, false, true];
  }

  /** Cell (0, 1) has 0 live neighbours and is not alive after its visit. */
  lemma Visit01(b: Board)
    requires b == [[false, false, false, true],
                   [false, false, false, false],
                   [true, true, true, true],
                   [false, false, false, false]]
    ensures Square(b)
    ensures Visit(b, 0, 1) ==
      [[false, false, false, true],
       [false, false, false, false],
       [true, true, true, true],
       [false, false, false, false]]
  {
    assert Square(b);
    NeighboursSum(b, 0, 1);
    assert LiveAt(b, -1, 0) + LiveAt(b, -1, 1) + LiveAt(b, -1, 2) +
      LiveAt(b, 0, 0) + LiveAt(b, 0, 2) +
      LiveAt(b, 1, 0) + LiveAt(b, 1, 1) + LiveAt(b, 1, 2) == 0;
    assert b[0][1 := false] == [false, false, false, true];
  }

  /** Cell (0, 2) has 1 live neighbour and is not alive after its visit. */
  lemma Visit02(b: Board)
    requires b == [[false, false, false, true],
                   [false, false, false, false],
                   [true, true, true, true],
                   [false, false, false, false]]
    ensures Square(b)
    ensures Visit(b, 0, 2) ==
      [[false, false, false, true],
       [false, false, false, false],
       [true, true, true, true],
       [false, false, false, false]]
  {
    assert Square(b);
    NeighboursSum(b, 0, 2);
    assert LiveAt(b, -1, 1) + LiveAt(b, -1, 2) + LiveAt(b, -1, 3) +
      LiveAt(b, 0, 1) + LiveAt(b, 0, 3) +
      LiveAt(b, 1, 1) + LiveAt(b, 1, 2) + LiveAt(b, 1, 3) == 1;
    assert b[0][2 := false] == [false, false, false, true];
  }

  /** Cell (0, 3) has 0 live neighbours and is not alive after its visit. */
  lemma Visit03(b: Board)
    requires b == [[false, false, false, true],
                   [false, false, false, false],
                   [true, true, true, true],
                   [false, false, false, false]]
    ensures Square(b)
    ensures Visit(b, 0, 3) ==
      [[false, false, false, false],
       [false, false, false, false],
       [true, true, true, true],
       [false, false, false, false]]
  {
    assert Square(b);
    NeighboursSum(b, 0, 3);
    assert LiveAt(b, -1, 2) + LiveAt(b, -1, 3) + LiveAt(b, -1, 4) +
      LiveAt(b, 0, 2) + LiveAt(b, 0, 4) +
      LiveAt(b, 1, 2) + LiveAt(b, 1, 3) + LiveAt(b, 1, 4) == 0;
    assert b[0][3 := false] == [false, false, false, false];
  }

  /** Row 0 of the pass, one cell after the other. */
  lemma Row0(t: Board)
    requires t == [[true, false, false, true],
                   [false, false, false, false],
                   [true, true, true, true],
                   [false, false, false, false]]
    ensures Square(t)
    ensures SweepRow(t, 0, 4) ==
      [[false, false, false, false],
       [false, false, false, false],
       [true, true, true, true],
       [false, false, false, false]]
  {
    assert Square(t);
    Visit00(SweepRow(t, 0, 0));
    Visit01(SweepRow(t, 0, 1));
    Visit02(SweepRow(t, 0, 2));
    Visit03(SweepRow(t, 0, 3));
  }

  /** Cell (1, 0) has 3 live neighbours and is alive after its visit. */
  lemma Visit10(b: Board)
    requires b == [[false, false, false, false],
                   [false, false, false, false],
                   [true, true, true, true],
                   [false, false, false, false]]
    ensures Square(b)
    ensures Visit(b, 1, 0) ==
      [[false, false, false, false],
       [true, false, false, false],
       [true, true, true, true],
       [false, false, false, false]]
  {
    assert Square(b);
    NeighboursSum(b, 1, 0);
    assert LiveAt(b, 0, -1) + LiveAt(b, 0, 0) + LiveAt(b, 0, 1) +
      LiveAt(b, 1, -1) + LiveAt(b, 1, 1) +
      LiveAt(b, 2, -1) + LiveAt(b, 2, 0) + LiveAt(b, 2, 1) == 3;
    assert b[1][0 := true] == [true, false, false, false];
  }

  /** Cell (1, 1) has 4 live neighbours and is not alive after its visit. */
  lemma Visit11(b: Board)
    requires b == [[false, false, false, false],
                   [true, false, false, false],
                   [true, true, true, true],
                   [false, false, false, false]]
    ensures Square(b)
    ensures Visit(b, 1, 1) ==
      [[false, false, false, false],
       [true, false, false, false],
       [true, true, true, true],
       [false, false, false, false]]
  {
    assert Square(b);
    NeighboursSum(b, 1, 1);
    assert LiveAt(b, 0, 0) + LiveAt(b, 0, 1) + LiveAt(b, 0, 2) +
      LiveAt(b, 1, 0) + LiveAt(b, 1, 2) +
      LiveAt(b, 2, 0) + LiveAt(b, 2, 1) + LiveAt(b, 2, 2) == 4;
    assert b[1][1 := false] == [true, false, false, false];
  }

  /** Cell (1, 2) has 3 live neighbours and is alive after its visit. */
  lemma Visit12(b: Board)
    requires b == [[false, false, false, false],
                   [true, false, false, false],
                   [true, true, true, true],
                   [false, false, false, false]]
    ensures Square(b)
    ensures Visit(b, 1, 2) ==
      [[false, false, false, false],
       [true, false, true, false],
       [true, true, true, true],
       [false, false, false, false]]
  {
    assert Square(b);
    NeighboursSum(b, 1, 2);
    assert LiveAt(b, 0, 1) + LiveAt(b, 0, 2) + LiveAt(b, 0, 3) +
      LiveAt(b, 1, 1) + LiveAt(b, 1, 3) +
      LiveAt(b, 2, 1) + LiveAt(b, 2, 2) + LiveAt(b, 2, 3) == 3;
    assert b[1][2 := true] == [true, false, true, false];
  }

  /** Cell (1, 3) has 5 live neighbours and is not alive after its visit. */
  lemma Visit13(b: Board)
    requires b == [[false, false, false, false],
                   [true, false, true, false],
                   [true, true, true, true],
                   [false, false, false, false]]
    ensures Square(b)
    ensures Visit(b, 1, 3) ==
      [[false, false, false, false],
       [true, false, true, false],
       [true, true, true, true],
       [false, false, false, false]]
  {
    assert Square(b);
    NeighboursSum(b, 1, 3);
    assert LiveAt(b, 0, 2) + LiveAt(b, 0, 3) + LiveAt(b, 0, 4) +
      LiveAt(b, 1, 2) + LiveAt(b, 1, 4) +
      LiveAt(b, 2, 2) + LiveAt(b, 2, 3) + LiveAt(b, 2, 4) == 5;
    assert b[1][3 := false] == [true, false, true, false];
  }

  /** Row 1 of the pass, one cell after the other. */
  lemma Row1(t: Board)
    requires t == [[false, false, false, false],
                   [false, false, false, false],
                   [true, true, true, true],
                   [false, false, false, false]]
    ensures Square(t)
    ensures SweepRow(t, 1, 4) ==
      [[false, false, false, false],
       [true, false, true, false],
       [true, true, true, true],
       [false, false, false, false]]
  {
    assert Square(t);
    Visit10(SweepRow(t, 1, 0));
    Visit11(SweepRow(t, 1, 1));
    Visit12(SweepRow(t, 1, 2));
    Visit13(SweepRow(t, 1, 3));
  }

  /** Cell (2, 0) has 3 live neighbours and is alive after its visit. */
  lemma Visit20(b: Board)
    requires b == [[false, false, false, false],
                   [true, false, true, false],
                   [true, true, true, true],
                   [false, false, false, false]]
    ensures Square(b)
    ensures Visit(b, 2, 0) ==
      [[false, false, false, false],
       [true, false, true, false],
       [true, true, true, true],
       [false, false, false, false]]
  {
    assert Square(b);
    NeighboursSum(b, 2, 0);
    assert LiveAt(b, 1, -1) + LiveAt(b, 1, 0) + LiveAt(b, 1, 1) +
      LiveAt(b, 2, -1) + LiveAt(b, 2, 1) +
      LiveAt(b, 3, -1) + LiveAt(b, 3, 0) + LiveAt(b, 3, 1) == 3;
    assert b[2][0 := true] == [true, true, true, true];
  }

  /** Cell (2, 1) has 4 live neighbours and is not alive after its visit. */
  lemma Visit21(b: Board)
    requires b == [[false, false, false, false],
                   [true, false, true, false],
                   [true, true, true, true],
                   [false, false, false, false]]
    ensures Square(b)
    ensures Visit(b, 2, 1) ==
      [[false, false, false, false],
       [true, false, true, false],
       [true, false, true, true],
       [false, false, false, false]]
  {
    assert Square(b);
    NeighboursSum(b, 2, 1);
    assert LiveAt(b, 1, 0) + LiveAt(b, 1, 1) + LiveAt(b, 1, 2) +
      LiveAt(b, 2, 0) + LiveAt(b, 2, 2) +
      LiveAt(b, 3, 0) + LiveAt(b, 3, 1) + LiveAt(b, 3, 2) == 4;
    assert b[2][1 := false] == [true, false, true, true];
  }

  /** Cell (2, 2) has 2 live neighbours and is alive after its visit. */
  lemma Visit22(b: Board)
    requires b == [[false, false, false, false],
                   [true, false, true, false],
                   [true, false, true, true],
                   [false, false, false, false]]
    ensures Square(b)
    ensures Visit(b, 2, 2) ==
      [[false, false, false, false],
       [true, false, true, false],
       [true, false, true, true],
       [false, false, false, false]]
  {
    assert Square(b);
    NeighboursSum(b, 2, 2);
    assert LiveAt(b, 1, 1) + LiveAt(b, 1, 2) + LiveAt(b, 1, 3) +
      LiveAt(b, 2, 1) + LiveAt(b, 2, 3) +
      LiveAt(b, 3, 1) + LiveAt(b, 3, 2) + LiveAt(b, 3, 3) == 2;
    assert b[2][2 := true] == [true, false, true, true];
  }

  /** Cell (2, 3) has 4 live neighbours and is not alive after its visit. */
  lemma Visit23(b: Board)
    requires b == [[false, false, false, false],
                   [true, false, true, false],
                   [true, false, true, true],
                   [false, false, false, false]]
    ensures Square(b)
    ensures Visit(b, 2, 3) ==
      [[false, false, false, false],
       [true, false, true, false],
       [true, false, true, false],
       [false, false, false, false]]
  {
    assert Square(b);
    NeighboursSum(b, 2, 3);
    assert LiveAt(b, 1, 2) + LiveAt(b, 1, 3) + LiveAt(b, 1, 4) +
      LiveAt(b, 2, 2) + LiveAt(b, 2, 4) +
      LiveAt(b, 3, 2) + LiveAt(b, 3, 3) + LiveAt(b, 3, 4) == 4;
    assert b[2][3 := false] == [true, false, true, false];
  }

  /** Row 2 of the pass, one cell after the other. */
  lemma Row2(t: Board)
    requires t == [[false, false, false, false],
                   [true, false, true, false],
                   [true, true, true, true],
                   [false, false, false, false]]
    ensures Square(t)
    ensures SweepRow(t, 2, 4) ==
      [[false, false, false, false],
       [true, false, true, false],
       [true, false, true, false],
       [false, false, false, false]]
  {
    assert Square(t);
    Visit20(SweepRow(t, 2, 0));
    Visit21(SweepRow(t, 2, 1));
    Visit22(SweepRow(t, 2, 2));
    Visit23(SweepRow(t, 2, 3));
  }

  /** Cell (3, 0) has 1 live neighbour and is not alive after its visit. */
  lemma Visit30(b: Board)
    requires b == [[false, false, false, false],
                   [true, false, true, false],
                   [true, false, true, false],
                   [false, false, false, false]]
    ensures Square(b)
    ensures Visit(b, 3, 0) ==
      [[false, false, false, false],
       [true, false, true, false],
       [true, false, true, false],
       [false, false, false, false]]
  {
    assert Square(b);
    NeighboursSum(b, 3, 0);
    assert LiveAt(b, 2, -1) + LiveAt(b, 2, 0) + LiveAt(b, 2, 1) +
      LiveAt(b, 3, -1) + LiveAt(b, 3, 1) +
      LiveAt(b, 4, -1) + LiveAt(b, 4, 0) + LiveAt(b, 4, 1) == 1;
    assert b[3][0 := false] == [false, false, false, false];
  }

  /** Cell (3, 1) has 2 live neighbours and is not alive after its visit. */
  lemma Visit31(b: Board)
    requires b == [[false, false, false, false],
                   [true, false, true, false],
                   [true, false, true, false],
                   [false, false, false, false]]
    ensures Square(b)
    ensures Visit(b, 3, 1) ==
      [[false, false, false, false],
       [true, false, true, false],
       [true, false, true, false],
       [false, false, false, false]]
  {
    assert Square(b);
    NeighboursSum(b, 3, 1);
    assert LiveAt(b, 2, 0) + LiveAt(b, 2, 1) + LiveAt(b, 2, 2) +
      LiveAt(b, 3, 0) + LiveAt(b, 3, 2) +
      LiveAt(b, 4, 0) + LiveAt(b, 4, 1) + LiveAt(b, 4, 2) == 2;
    assert b[3][1 := false] == [false, false, false, false];
  }

  /** Cell (3, 2) has 1 live neighbour and is not alive after its visit. */
  lemma Visit32(b: Board)
    requires b == [[false, false, false, false],
                   [true, false, true, false],
                   [true, false, true, false],
                   [false, false, false, false]]
    ensures Square(b)
    ensures Visit(b, 3, 2) ==
      [[false, false, false, false],
       [true, false, true, false],
       [true, false, true, false],
       [false, false, false, false]]
  {
    assert Square(b);
    NeighboursSum(b, 3, 2);
    assert LiveAt(b, 2, 1) + LiveAt(b, 2, 2) + LiveAt(b, 2, 3) +
      LiveAt(b, 3, 1) + LiveAt(b, 3, 3) +
      LiveAt(b, 4, 1) + LiveAt(b, 4, 2) + LiveAt(b, 4, 3) == 1;
    assert b[3][2 := false] == [false, false, false, false];
  }

  /** Cell (3, 3) has 2 live neighbours and is not alive after its visit. */
  lemma Visit33(b: Board)
    requires b == [[false, false, false, false],
                   [true, false, true, false],
                   [true, false, true, false],
                   [false, false, false, false]]
    ensures Square(b)
    ensures Visit(b, 3, 3) ==
      [[false, false, false, false],
       [true, false, true, false],
       [true, false, true, false],
       [false, false, false, false]]
  {
    assert Square(b);
    NeighboursSum(b, 3, 3);
    assert LiveAt(b, 2, 2) + LiveAt(b, 2, 3) + LiveAt(b, 2, 4) +
      LiveAt(b, 3, 2) + LiveAt(b, 3, 4) +
      LiveAt(b, 4, 2) + LiveAt(b, 4, 3) + LiveAt(b, 4, 4) == 2;
    assert b[3][3 := false] == [false, false, false, false];
  }

  /** Row 3 of the pass, one cell after the other. */
  lemma Row3(t: Board)
    requires t == [[false, false, false, false],
                   [true, false, true, false],
                   [true, false, true, false],
                   [false, false, false, false]]
    ensures Square(t)
    ensures SweepRow(t, 3, 4) ==
      [[false, false, false, false],
       [true, false, true, false],
       [true, false, true, false],
       [false, false, false, false]]
  {
    assert Square(t);
    Visit30(SweepRow(t, 3, 0));
    Visit31(SweepRow(t, 3, 1));
    Visit32(SweepRow(t, 3, 2));
    Visit33(SweepRow(t, 3, 3));
  }
}
