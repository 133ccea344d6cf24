# sense-of-life in Dafny

A model of the engine of *sense-of-life*, a Game of Life for an 8-by-8 LED
matrix driven by a joystick. The engine has three layers:

- `Utils` (utils.dfy): the array helpers of `src/utils.js`, which are pure.
  - `createArray`, `createGrid`, one-level `flattenArray`, and the index-aware two-dimensional map `gridReducer`.
  - Nested JavaScript arrays are the datatype `Item`.
- `Cells` (cell.dfy): the `Cell` class of `src/cell.js`, a mutable alive flag.
- `Grids` (grid.dfy): the `Grid` class of `src/grid.js`.
  - A square matrix of `Cell` objects on a torus.
  - Cells are created by `init`/`load`, raised by `riseCell`, and advanced one generation by `newGeneration`/`tick`.
- `Games` (game.dfy): from `src/game.js`.
  - The cursor and its wrapping moves.
  - The press handler: a click raises a cell, anything else moves the cursor.
  - The colour of each LED.

`Life` (life.dfy) states what a grid MEANS. It works on boards of booleans:

- the torus neighbour count;
- the B3/S23 rule;
- the encoding and the live-cell count;
- the generation the grid computes.

Every method of `Grid` is proved against these functions, through `Grid.State()`, the board of the cells' alive flags. `GridExamples` (grid_examples.dfy) works the boards of `src/grid.test.js` through the model.

## The generation is a sequential pass

`newGeneration` maps the matrix with `gridReducer`. For each cell, the callback counts the neighbours and then calls `die()` or `live()` on that very cell. So the cells are decided one at a time, in row-major order, and in place. Each later cell sees the NEW state of the cells before it.

The model follows that code:
- `Life.NewGeneration` is the pass `Sweep`/`SweepRow`/`Visit`.
- `Life.NewGenerationCell` proves what each cell is decided from: its original state, and the neighbours on a board mixing the finished earlier cells with the original later ones.
- `Grids.Grid.NewGeneration` is two nested loops over the cells, proved equal to that pass.

Conway's rule, as usually stated, decides every cell on the old board (`Life.SimultaneousGeneration`); this code does not. The test at `src/grid.test.js:19-35` and `:62-75` expects the sequential result. `GridExamples.GoldenSeedTick` proves that the pass yields the expected board `0000/1010/1010/0000`, with 4 live cells. It also shows that cell (2, 1) differs between the two readings.

## Model

| member | source | states |
|---|---|---|
| Utils.CreateArray | src/utils.js:1-5 | a size of 0 gives the empty array; otherwise `size` entries, entry k being the callback's value at k |
| Utils.CreateGrid | src/utils.js:7-11 | `size` rows of `size` entries; the callback reaches only the inner array, so entry (i, j) is its value at the column j |
| Utils.FlattenArray | src/utils.js:13-20 | an array of plain values comes back unchanged |
| Utils.FlattenArrayIsConcatOfSpreads | src/utils.js:13-20 | the reduce is the concatenation of the elements, each array element spread and each plain element kept |
| Utils.FlattenArrayOfRows | src/utils.js:13-20 | on an array of arrays of plain values, flattening is concatenation of the rows in order |
| Utils.FlattenArrayRowMajor | src/utils.js:13-20 | an n-by-n array flattens to n * n values with entry i * n + j equal to grid[i][j] |
| Utils.FlattenArrayOneLevelOnly | src/utils.test.js:56-62 | `[1, 2, [3, [4]]]` flattens to `[1, 2, 3, [4]]`: deeper arrays stay elements |
| Utils.GridReducer | src/utils.js:22-28 | the shape is kept and entry (i, j) is the callback applied to grid[i][j], i and j |
| Utils.GridReducerOncePerCell | src/utils.test.js:64-71 | on an n-by-n grid the results, read row by row, are exactly n * n callback applications, one per cell |
| Life.Blank | src/grid.js:19-21 | the board of a fresh grid is n-by-n with every cell dead |
| Life.Neighbours | src/grid.js:51-64 | at most 8 live neighbours |
| Life.NeighboursSum | src/grid.js:51-64 | the count is the sum over the eight offsets, each index taken modulo n |
| Life.SingleCellCountsItself | src/grid.js:51-64 | on a 1-by-1 board all eight offsets land on the cell itself: 8 if it is alive, else 0 |
| Life.RuleBranches | src/grid.js:78-90 | the four branches of getNextGenCell are B3/S23: dies below 2 or above 3, born at 3, otherwise unchanged |
| Life.NewGeneration | src/grid.js:36-41 | the row-major in-place pass keeps the board n-by-n |
| Life.SweepSeesMix | src/grid.js:36-41 | when cell (i, j) is decided, the board is the final state before (i, j) and the original state from (i, j) on |
| Life.NewGenerationCell | src/grid.js:36-41 | cell (i, j) of the result is the rule on its original state and its neighbours on that mixed board |
| Life.Encode | src/grid.js:92-96 | n * n characters; the one at i * n + j is '1' for a live cell and '0' for a dead one |
| Life.RowAlive | src/grid.js:45-47 | a row counts at most as many live cells as it has |
| Life.FindAliveCellsBound | src/grid.js:43-49 | an n-by-n board has at most n * n live cells |
| Life.FindAliveCellsCountsOnes | src/grid.js:43-49 | the live-cell count equals the number of '1's in the encoding |
| Life.FindAliveCellsNone | src/grid.js:43-49 | a board without live cells counts 0 |
| Life.BlankEncodesZeros | src/grid.js:12-21 | a fresh n-by-n grid encodes as n * n zeros and counts 0 live cells |
| Cells.Cell.constructor | src/cell.js:5-7 | without an initial status the cell is dead |
| Cells.Cell.WithStatus | src/cell.js:5-7 | with an initial status the cell has that status |
| Cells.Cell.Alive | src/cell.js:9-11 | alive is exactly the status |
| Cells.Cell.Dead | src/cell.js:13-15 | dead is always the opposite of alive |
| Cells.Cell.Die | src/cell.js:17-20 | the cell is dead afterwards, the same cell is returned, and a dead cell is left untouched (idempotent) |
| Cells.Cell.Live | src/cell.js:22-25 | the cell is alive afterwards, the same cell is returned, and a live cell is left untouched (idempotent) |
| Grids.NewCells | src/grid.js:102-104 | one fresh cell per entry, pairwise distinct, each alive exactly where the matrix is true |
| Grids.Grid.State | src/grid.js:12-17 | the board is n-by-n and entry (i, j) is the alive flag of cell (i, j) |
| Grids.Grid.constructor | src/grid.js:12-17 | a new grid has the given size and every cell dead |
| Grids.Grid.Init | src/grid.js:19-21 | all cells are replaced by fresh dead ones |
| Grids.Grid.Load | src/grid.js:102-104 | all cells are replaced by fresh ones, alive exactly where the matrix is true |
| Grids.Grid.RiseCell | src/grid.js:32-34 | cell (i, j) is alive afterwards and no other cell changes |
| Grids.Grid.GetPrevIndex | src/grid.js:70-72 | for i in [0, n) the result is in [0, n) and is i - 1 modulo n |
| Grids.Grid.GetNextIndex | src/grid.js:74-76 | for i in [0, n) the result is in [0, n) and is i + 1 modulo n |
| Grids.Grid.CheckNeighbour | src/grid.js:66-68 | 1 exactly when cell (i, j) is alive, else 0 |
| Grids.Grid.CountAliveNeighbours | src/grid.js:51-64 | the eight wrapped checks add up to the torus neighbour count of the board |
| Grids.Grid.GetNextGenCell | src/grid.js:78-90 | the same cell is returned, now alive exactly as B3/S23 says, and it is untouched when the rule keeps its state |
| Grids.Grid.NextGenAt | src/grid.js:37-40 | one callback decides cell (i, j) on the current board and changes nothing else |
| Grids.Grid.NextGenRow | src/grid.js:36-41 | the inner map decides row i left to right and returns that row's cells |
| Grids.Grid.NewGeneration | src/grid.js:36-41 | the same cells come back in the same places, and the board is the row-major pass of the board before |
| Grids.Grid.Tick | src/grid.js:23-30 | the board advances one generation; the result carries the new board's encoding and live-cell count |
| Grids.Grid.Encode | src/grid.js:92-96 | n * n characters, each '0' or '1', the one at i * n + j being '1' exactly when cell (i, j) is alive |
| Grids.Grid.FindAliveCells | src/grid.js:43-49 | the number of '1's in the encoding, at most n * n |
| Grids.Grid.Reduce | src/grid.js:98-100 | the matrix of the callback's values on each cell and its indices; the callback may read the cells (their state) |
| Grids.Grid.ReduceAliveIsState | src/grid.js:92-96 | mapping each cell to its alive flag, as encode's callback does, gives the grid's board |
| Games.Moved | src/game.js:22-39 | a move keeps the cursor on the board |
| Games.MovedTimesIsShift | src/game.js:22-39 | k presses in one direction move the cursor k steps modulo the size |
| Games.FullCycle | src/game.js:22-39 | n presses in one direction bring the cursor back where it started |
| Games.OppositesCancel | src/game.js:25-38 | up then down, down then up, left then right and right then left each return to the start |
| Games.OtherDirectionsStay | src/game.js:25-38 | a press other than the four directions leaves the cursor where it is |
| Games.Paint | src/game.js:55-68 | one colour per cell in row-major order: white under a displayed cursor, otherwise blue for alive and black for dead |
| Games.PaintAgreesWithEncode | src/game.js:58-65 | away from a displayed cursor, a pixel is blue exactly where the encoding has '1' |
| Games.Game.constructor | src/game.js:11-20 | a blank grid of the given size, the cursor at (0, 0) and displayed |
| Games.Game.MoveCursor | src/game.js:22-39 | the edge-wrapping ternaries move the cursor exactly as the modular step `Moved` |
| Games.Game.PaintGrid | src/game.js:55-68 | the pixels are `Paint` of the grid's board, cursor and flag: size * size colours in row-major order, white under a displayed cursor, otherwise blue for a live cell and black for a dead one |
| Games.Game.OnPress | src/game.js:43-51 | a click raises the cell under the cursor and keeps the cursor; any other press moves the cursor and keeps the grid; then the grid is painted |
| GridExamples.GoldenSeedTick | src/grid.test.js:19-35 | the golden seed's next generation is rows 0000/1010/1010/0000, encoded "0000101010100000" with 4 live cells, unlike the simultaneous step at (2, 1) |
| GridExamples.GoldenResult | src/grid.test.js:62-75 | the expected tick result: string "0000101010100000" and 4 live cells |
| GridExamples.FreshGridEncoding | src/grid.test.js:13-17 | a fresh 4-by-4 grid encodes as sixteen zeros |
| GridExamples.FindAliveCellsExample | src/grid.test.js:37-47 | one full row of four live cells counts 4 |
| GridExamples.CountAliveNeighboursExample | src/grid.test.js:49-60 | on the test board, cell (0, 0) has 2 live neighbours and cell (1, 1) has 8 |

## Left out

- `src/app.js` and `src/testApp.js` only wire the program to the hardware libraries, so they are not part of this model.
- The joystick subscription (`getJoystick().then`, `on('press')`) and `leds.setPixels` are asynchronous device I/O.
  - A press is a call of `Games.Game.OnPress`.
  - The pixels handed to the LEDs are its result.
  - The `Game` constructor's initial `paintGrid()` and `bindJoystick()` calls are not modelled.
- `sleep` is a timer promise and is not modelled.
- The `constants` module is not part of this model.
  - `GRID_SIZE` is the `Game` constructor's parameter, required to be positive.
  - The three colours are the datatype `Colour`.
- Games.Game.PaintGrid: the source calls `this.g.reduceGrid`, which `Grid` does not define.
  - The method `Grid` does have, `reduce`, hands the callback `Cell` objects, and those are always truthy.
  - The model paints from each cell's alive flag, as the colour choice evidently intends.
  - It does not model the failing call.
- Grids.Grid.Load: requires an n-by-n matrix of booleans.
  - The source accepts any matrix, takes the truthiness of each entry, and does not check the size.
- Grids.Grid.RiseCell: requires in-range indices, because the source fails on indices outside the grid.
- Grids.Grid.CheckNeighbour and Grids.Grid.CountAliveNeighbours: require in-range indices, the only ones the grid passes them.
- Grids.Grid.GetPrevIndex and Grids.Grid.GetNextIndex: state their wrap-around only for indices in [0, n), the only ones the grid passes them.
- Cells.Cell: the status is a `bool`. The source stores any value and reads its truthiness.
- Utils.CreateArray, Utils.CreateGrid and Utils.GridReducer always take a callback.
  - The source's default callback `() => {}` fills arrays with `undefined`.
  - Sizes are natural numbers, so a missing or non-numeric size is not modelled.
- Utils.FlattenArray: models the reduce's accumulator as always an array, which it is because it starts as `[]`.
- `Life.Encode` joins the digits with `Concat` rather than through `FlattenArray`.
  - `Utils.FlattenArrayOfRows` proves the two agree on arrays of arrays.
- JavaScript arrays are values here (`seq`), and each map builds new ones. The `Cell` objects inside them are heap objects whose identity is tracked.
- Grids.Grid.Tick: its result is stated on `Life.Encode` and `Life.FindAliveCells` of the new board. `Grids.Grid.Encode` and `Grids.Grid.FindAliveCells` are those same functions.
