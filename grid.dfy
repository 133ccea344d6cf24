/** The grid (src/grid.js): a square matrix of Cell objects on a torus. The
    arrays of the matrix are rebuilt by every map, but the cells inside them
    are the same objects throughout a generation, and a generation updates
    them in place. */
module Grids {
  import opened Utils
  import opened Life
  import opened Cells

  /** What `tick()` returns. */
  datatype TickResult = TickResult(stringValue: string, liveCells: nat)

  /** No cell occurs at two positions of the matrix. */
  ghost predicate Distinct(cells: seq<seq<Cell>>)
  {
    forall i, j, p, q ::
      0 <= i < |cells| && 0 <= j < |cells[i]| && 0 <= p < |cells| && 0 <= q < |cells[p]| && (i != p || j != q) ==>
        cells[i][j] != cells[p][q]
  }

  /** Builds a fresh Cell for every entry of `m`, alive exactly where `m` is
      true: the `new Cell(...)` maps of `init()` and `load()`. */
  method NewCells(m: Board) returns (cells: seq<seq<Cell>>, ghost repr: set<Cell>)
    ensures |cells| == |m|
    ensures forall i :: 0 <= i < |m| ==> |cells[i]| == |m[i]|
    ensures forall i, j :: 0 <= i < |m| && 0 <= j < |m[i]| ==>
      cells[i][j] in repr && cells[i][j].status == m[i][j]
    ensures Distinct(cells)
    ensures fresh(repr)
  {
    cells, repr := [], {};
    var i := 0;
    while i < |m|
      invariant i <= |m| && |cells| == i
      invariant forall p :: 0 <= p < i ==> |cells[p]| == |m[p]|
      invariant forall p, q :: 0 <= p < i && 0 <= q < |m[p]| ==>
        cells[p][q] in repr && cells[p][q].status == m[p][q]
      invariant Distinct(cells)
      invariant fresh(repr)
    {
      var row: seq<Cell> := [];
      var j := 0;
      while j < |m[i]|
        invariant j <= |m[i]| && |row| == j
        invariant forall q :: 0 <= q < j ==> row[q] in repr && row[q].status == m[i][q]
        invariant forall p, q :: 0 <= p < i && 0 <= q < |m[p]| ==>
          cells[p][q] in repr && cells[p][q].status == m[p][q]
        invariant forall q, s :: 0 <= q < s < j ==> row[q] != row[s]
        invariant forall p, q, s :: 0 <= p < i && 0 <= q < |m[p]| && 0 <= s < j ==> cells[p][q] != row[s]
        invariant fresh(repr)
      {
        var cell := new Cell.WithStatus(m[i][j]);
        row := row + [cell];
        repr := repr + {cell};
        j := j + 1;
      }
      cells := cells + [row];
      i := i + 1;
    }
  }

  class Grid {
    /** The side of the square; the source never reassigns it. */
    const gridSize: nat
    /** The matrix of cells, indexed [row][column]. */
    var grid: seq<seq<Cell>>
    /** The cells the grid owns. */
    ghost var Repr: set<Cell>

    /** An n-by-n matrix of distinct cells, all owned by the grid. */
    ghost predicate Valid()
      reads this
    {
      |grid| == gridSize &&
      (forall i :: 0 <= i < gridSize ==> |grid[i]| == gridSize) &&
      (forall i, j :: 0 <= i < gridSize && 0 <= j < gridSize ==> grid[i][j] in Repr) &&
      Distinct(grid)
    }

    /** The alive flags of the cells, the board the grid stands for. */
    function State(): (b: Board)
      reads this, Repr
      requires Valid()
      ensures |b| == gridSize && Square(b)
      ensures forall i, j :: 0 <= i < gridSize && 0 <= j < gridSize ==> b[i][j] == grid[i][j].Alive()
    {
      seq(gridSize, i requires 0 <= i < gridSize && Valid() reads this, Repr =>
        seq(gridSize, j requires 0 <= j < gridSize && Valid() reads this, Repr => grid[i][j].Alive()))
    }

    /** `new Grid(size)`: an n-by-n grid of dead cells. */
    constructor (size: nat)
      ensures gridSize == size
      ensures Valid() && fresh(Repr)
      ensures State() == Blank(size)
    {
      gridSize := size;
      grid := [];
      Repr := {};
      new;
      Init();
    }

    /** `init()`: replaces every cell by a fresh dead one. */
    method Init()
      modifies this
      ensures Valid() && fresh(Repr)
      ensures State() == Blank(gridSize)
    {
      var cells;
      cells, Repr := NewCells(Blank(gridSize));
      grid := cells;
      assert forall i :: 0 <= i < gridSize ==> State()[i] == Blank(gridSize)[i];
    }

    /** `load(m)`: replaces every cell by a fresh one, alive exactly where
        the matrix holds a truthy value. */
    method Load(m: Board)
      requires |m| == gridSize && Square(m)
      modifies this
      ensures Valid() && fresh(Repr)
      ensures State() == m
    {
      var cells;
      cells, Repr := NewCells(m);
      grid := cells;
      assert forall i :: 0 <= i < gridSize ==> State()[i] == m[i];
    }

    /** When every cell other than the one at (i, j) still has the status
        it had on the board `before`, the board differs from `before` at
        (i, j) only. */
    lemma OneCellChanged(before: Board, i: nat, j: nat)
      requires Valid() && |before| == gridSize && Square(before) && i < gridSize && j < gridSize
      requires forall p, q :: 0 <= p < gridSize && 0 <= q < gridSize && grid[p][q] != grid[i][j] ==>
        grid[p][q].status == before[p][q]
      ensures State() == before[i := before[i][j := grid[i][j].status]]
    {
      var now := State();
      forall p, q | 0 <= p < gridSize && 0 <= q < gridSize
        ensures now[p][q] == before[i := before[i][j := grid[i][j].status]][p][q]
      {
        if p != i || q != j {
          assert grid[p][q] != grid[i][j];
        }
      }
      assert forall p :: 0 <= p < gridSize ==> now[p] == before[i := before[i][j := grid[i][j].status]][p];
    }

    /** `riseCell(i, j)`: cell (i, j) comes alive; no other cell changes. */
    method RiseCell(i: nat, j: nat)
      requires Valid() && i < gridSize && j < gridSize
      modifies Repr
      ensures Valid()
      ensures State() == old(State())[i := old(State())[i][j := true]]
    {
      ghost var before := State();
      var _ := grid[i][j].Live();
      OneCellChanged(before, i, j);
    }

    /** `getPrevIndex(i)`: the index before `i`, wrapping from 0 to the last
        one; on the torus, `i - 1` modulo the size. */
    function GetPrevIndex(i: int): (r: int)
      ensures 0 <= i < gridSize ==> 0 <= r < gridSize && r == (i - 1) % gridSize
    {
      if i - 1 < 0 then gridSize - 1 else i - 1
    }

    /** `getNextIndex(i)`: the index after `i`, wrapping from the last one
        to 0; on the torus, `i + 1` modulo the size. */
    function GetNextIndex(i: int): (r: int)
      ensures 0 <= i < gridSize ==> 0 <= r < gridSize && r == (i + 1) % gridSize
    {
      if i + 1 == gridSize then 0 else i + 1
    }

    /** `checkNeighbour(i, j)`: 1 when cell (i, j) is alive, else 0. */
    function CheckNeighbour(i: nat, j: nat): (r: nat)
      reads this, Repr
      requires Valid() && i < gridSize && j < gridSize
      ensures r <= 1 && (r == 1 <==> State()[i][j])
    {
      if grid[i][j].Alive() then 1 else 0
    }

    /** `countAliveNeighbours(i, j)`: the eight neighbours, visited clockwise
        with wrapped indices, are exactly the torus neighbours of the board. */
    function CountAliveNeighbours(i: nat, j: nat): (r: nat)
      reads this, Repr
      requires Valid() && i < gridSize && j < gridSize
      ensures r == Neighbours(State(), i, j)
    {
      var pi, ni, pj, nj := GetPrevIndex(i), GetNextIndex(i), GetPrevIndex(j), GetNextIndex(j);
      var b := State();
      NeighboursSum(b, i, j);
      ModSelf(i, gridSize);
      ModSelf(j, gridSize);
      assert LiveAt(b, i - 1, j - 1) == CheckNeighbour(pi, pj);
      assert LiveAt(b, i, j - 1) == CheckNeighbour(i, pj);
      assert LiveAt(b, i + 1, j - 1) == CheckNeighbour(ni, pj);
      assert LiveAt(b, i + 1, j) == CheckNeighbour(ni, j);
      assert LiveAt(b, i + 1, j + 1) == CheckNeighbour(ni, nj);
      assert LiveAt(b, i, j + 1) == CheckNeighbour(i, nj);
      assert LiveAt(b, i - 1, j + 1) == CheckNeighbour(pi, nj);
      assert LiveAt(b, i - 1, j) == CheckNeighbour(pi, j);
      CheckNeighbour(pi, pj) +
      CheckNeighbour(i, pj) +
      CheckNeighbour(ni, pj) +
      CheckNeighbour(ni, j) +
      CheckNeighbour(ni, nj) +
      CheckNeighbour(i, nj) +
      CheckNeighbour(pi, nj) +
      CheckNeighbour(pi, j)
    }

    /** `getNextGenCell(cell, k)`: the same cell, now alive exactly when the
        B3/S23 rule says so; a cell the rule keeps as it is is not touched. */
    method GetNextGenCell(cell: Cell, aliveNeighbours: nat) returns (r: Cell)
      modifies cell
      ensures r == cell
      ensures cell.Alive() == Rule(old(cell.Alive()), aliveNeighbours)
      ensures old(cell.Alive()) == Rule(old(cell.Alive()), aliveNeighbours) ==> unchanged(cell)
    {
      if aliveNeighbours < 2 && cell.Alive() {
        r := cell.Die();
      } else if aliveNeighbours > 3 && cell.Alive() {
        r := cell.Die();
      } else if aliveNeighbours == 3 && cell.Dead() {
        r := cell.Live();
      } else {
        r := cell;
      }
    }

    /** The callback of `newGeneration()` at (i, j): counts the neighbours
        of cell (i, j) on the board as it is now and decides that cell. */
    method NextGenAt(i: nat, j: nat) returns (cell: Cell)
      requires Valid() && i < gridSize && j < gridSize
      modifies Repr
      ensures Valid() && cell == grid[i][j]
      ensures State() == Visit(old(State()), i, j)
    {
      ghost var before := State();
      var aliveNeighbours := CountAliveNeighbours(i, j);
      cell := GetNextGenCell(grid[i][j], aliveNeighbours);
      OneCellChanged(before, i, j);
    }

    /** `newGeneration()`: maps the matrix row by row, deciding each cell in
        place from the neighbours it has at that moment. The result holds the
        same cells in the same places; the board afterwards is the row-major
        pass `Life.NewGeneration` of the board before. */
    method NewGeneration() returns (next: seq<seq<Cell>>)
      requires Valid()
      modifies Repr
      ensures Valid() && next == grid
      ensures State() == Life.NewGeneration(old(State()))
    {
      ghost var b0 := State();
      var rows: seq<seq<Cell>> := [];
      var i := 0;
      while i < gridSize
        invariant Valid()
        invariant i <= gridSize && rows == grid[..i]
        invariant State() == Sweep(b0, i)
      {
        var row := NextGenRow(i);
        rows := rows + [row];
        i := i + 1;
      }
      next := rows;
    }

    /** The inner map of `newGeneration()` over row i: the cells of the row
        decided from left to right, each on the board left by the previous
        one. */
    method NextGenRow(i: nat) returns (row: seq<Cell>)
      requires Valid() && i < gridSize
      modifies Repr
      ensures Valid() && row == grid[i]
      ensures State() == SweepRow(old(State()), i, gridSize)
    {
      ghost var b0 := State();
      row := [];
      var j := 0;
      while j < gridSize
        invariant Valid()
        invariant j <= gridSize && row == grid[i][..j]
        invariant State() == SweepRow(b0, i, j)
      {
        ghost var before := State();
        var cell := NextGenAt(i, j);
        assert SweepRow(b0, i, j + 1) == Visit(before, i, j);
        assert grid[i][..j + 1] == grid[i][..j] + [cell];
        row := row + [cell];
        j := j + 1;
      }
    }

    /** `tick()`: replaces the matrix by the next generation and reports its
        encoding and its live-cell count. */
    method Tick() returns (r: TickResult)
      requires Valid()
      modifies this`grid, Repr
      ensures Valid() && Repr == old(Repr)
      ensures State() == Life.NewGeneration(old(State()))
      ensures r.stringValue == Life.Encode(State()) && r.liveCells == Life.FindAliveCells(State())
    {
      var next := NewGeneration();
      grid := next;
      var b := State();
      r := TickResult(Life.Encode(b), Life.FindAliveCells(b));
    }

    /** `encode()`: one '0' or '1' per cell, row after row. */
    function Encode(): (s: string)
      reads this, Repr
      requires Valid()
      ensures |s| == gridSize * gridSize
      ensures forall i, j :: 0 <= i < gridSize && 0 <= j < gridSize ==>
        RowMajor(i, j, gridSize) < |s| && (s[RowMajor(i, j, gridSize)] == '1' <==> grid[i][j].Alive())
      ensures forall k :: 0 <= k < |s| ==> s[k] == '0' || s[k] == '1'
    {
      var b := State();
      var s := Life.Encode(b);
      forall k | 0 <= k < |s|
        ensures s[k] == '0' || s[k] == '1'
      {
        var i, j := Unflatten(k, gridSize);
      }
      s
    }

    /** `findAliveCells()`: the number of live cells, which is the number of
        '1's in the encoding and at most n * n. */
    function FindAliveCells(): (r: nat)
      reads this, Repr
      requires Valid()
      ensures r == Occurrences(Encode(), '1')
      ensures r <= gridSize * gridSize
    {
      var b := State();
      FindAliveCellsCountsOnes(b);
      FindAliveCellsBound(b, gridSize);
      Life.FindAliveCells(b)
    }

    /** `reduce(cb)`: the grid's cells mapped with their indices, in the
        shape of the grid. The callback may read the cells it is handed, or
        anything else its reads clause names. */
    function Reduce<U>(callbackFn: (Cell, nat, nat) ~> U): (r: seq<seq<U>>)
      reads this, Repr
      reads set i, j, o | 0 <= i < |grid| && 0 <= j < |grid[i]| && o in callbackFn.reads(grid[i][j], i, j) :: o
      requires Valid()
      requires forall i, j :: 0 <= i < gridSize && 0 <= j < gridSize ==> callbackFn.requires(grid[i][j], i, j)
      ensures |r| == gridSize && Rectangular(r, gridSize)
      ensures forall i, j :: 0 <= i < gridSize && 0 <= j < gridSize ==> r[i][j] == callbackFn(grid[i][j], i, j)
    {
      ReduceRows(callbackFn, gridSize)
    }

    /** The outer map of `reduce`, over the first `k` rows. */
    function ReduceRows<U>(callbackFn: (Cell, nat, nat) ~> U, k: nat): (r: seq<seq<U>>)
      reads this, Repr
      reads set i, j, o | 0 <= i < k && 0 <= j < gridSize && o in callbackFn.reads(grid[i][j], i, j) :: o
      requires Valid() && k <= gridSize
      requires forall i, j :: 0 <= i < k && 0 <= j < gridSize ==> callbackFn.requires(grid[i][j], i, j)
      ensures |r| == k
      ensures forall i :: 0 <= i < k ==> |r[i]| == gridSize
      ensures forall i, j :: 0 <= i < k && 0 <= j < gridSize ==> r[i][j] == callbackFn(grid[i][j], i, j)
    {
      if k == 0 then [] else ReduceRows(callbackFn, k - 1) + [ReduceRow(callbackFn, k - 1, gridSize)]
    }

    /** The inner map of `reduce`, over the first `k` cells of row `i`. */
    function ReduceRow<U>(callbackFn: (Cell, nat, nat) ~> U, i: nat, k: nat): (r: seq<U>)
      reads this, Repr
      reads set j, o | 0 <= j < k && o in callbackFn.reads(grid[i][j], i, j) :: o
      requires Valid() && i < gridSize && k <= gridSize
      requires forall j :: 0 <= j < k ==> callbackFn.requires(grid[i][j], i, j)
      ensures |r| == k
      ensures forall j :: 0 <= j < k ==> r[j] == callbackFn(grid[i][j], i, j)
    {
      if k == 0 then [] else ReduceRow(callbackFn, i, k - 1) + [callbackFn(grid[i][k - 1], i, k - 1)]
    }

    /** Mapping every cell to its alive flag, as `encode()` does before
        turning the flags into digits, gives the board of the grid. */
    lemma ReduceAliveIsState()
      requires Valid()
      ensures Reduce((cell: Cell, i: nat, j: nat) reads cell => cell.status) == State()
    {
      var alive := (cell: Cell, i: nat, j: nat) reads cell => cell.status;
      var r := Reduce(alive);
      assert forall i :: 0 <= i < gridSize ==> r[i] == State()[i];
    }
  }
}
