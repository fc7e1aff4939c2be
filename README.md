# Game of Life engine, modelled in Dafny

This project models the generation engine of a small Java implementation of
Conway's Game of Life, and the start-up check that guards it.

The engine (`GameLogic`) holds two equally sized boolean grids: the current
generation and a scratch buffer for the next one. The grid does not wrap at
its edges. The engine does three things:

- **Construction.** Both grids start dead. The constructor then walks a flat
  list of integers two entries at a time and sets each named
  (row, column) cell alive.
- **Step.** One step fills the scratch grid cell by cell. Each cell's live
  neighbours are counted in one of four ways, depending on the grid's shape:
  - a one-cell grid has no neighbours;
  - a one-row grid has its own counter;
  - a one-column grid has its own counter;
  - any larger grid uses a nine-way split into four corners, four edges and
    the interior.

  The birth and survival rule is then applied. Finally the scratch grid is
  copied back into the current grid in place, so the array a client obtained
  from `getCurrentGrid` shows the new generation.
- **Start-up check.** Before any engine is built, the application checks
  that the list has even length and that every row and column lies inside
  the grid. On invalid input no engine is constructed.

The files:

- `life.dfy` (module `Life`) — the mathematical model:
  - grids as values;
  - the reference neighbour count `Neighbours`: the live cells among the
    eight surrounding positions that lie inside the grid;
  - the rule `NextState`;
  - the synchronous step `Step` and repeated steps `Generations`;
  - grids built from a set of live cells (`Pattern`, `Dead`) and the
    pairs of a flat list (`Pairs`);
  - lemmas about extinction.
- `engine.dfy` (module `Engine`) — the class `GameLogic`:
  - its two `array2<bool>` fields and the constructor, step and copy-back
    as methods with loop invariants;
  - the three hand-written neighbour counters as functions, each proved
    equal to the reference count;
  - the body of the step's inner loop (`UpdateCell`) as a method of its own:
    neighbour dispatch, then the five-way rule.
- `startup.dfy` (module `Startup`) — the start-up check:
  - `ValidInput` as a looped method proved equal to the predicate
    `WellFormed`;
  - the proof that it accepts exactly the inputs the constructor can index
    safely;
  - the guarded start-up `Launch`.
- `patterns.dfy` (module `Patterns`) — the patterns the engine's tests use:
  - blinker, block, uncompleted block, four corners, beacon and toad;
  - what one or more steps do to each, for every grid large enough to hold
    the pattern.
- `gamelogic_test.dfy` (module `GameLogicTest`) — client methods that drive
  the engine as its tests do. Each method holds the array from
  `GetCurrentGrid` across calls to `BuildNextGeneration`.

## Model

| member | source | states |
|---|---|---|
| Life.LivingCell | src/GameLogic.java:152-158 | the result is 0 or 1, and it is 1 exactly for a live cell |
| Life.Neighbours | src/GameLogic.java:41-50 | the reference neighbour count never exceeds 8 |
| Life.Step | src/GameLogic.java:38-69 | a step keeps the number of rows and the length of every row |
| Life.Pattern | src/GameLogic.java:21-22 | a seeded grid is a rectangle of exactly rows x columns cells |
| Life.PairsMembers | src/GameLogic.java:26-30 | a cell is seeded iff some pair k of the flat list has row input[2k] and column input[2k+1] |
| Life.NoNeighboursInSingleCellGrid | src/GameLogic.java:42-43 | in a 1 x 1 grid the only cell has a reference count of 0, so the constant 0 used for it is right |
| Life.DeadIsFixedPoint | test/GameLogicTest.java:169-186 | the all-dead grid is unchanged by a step |
| Life.DeadForever | test/GameLogicTest.java:169-186 | the all-dead grid stays all dead after any number of steps |
| Life.LoneCellDies | test/GameLogicTest.java:17-31 | a grid with one live cell, at any position and of any size (1 x 1 and 1 x N included), is all dead after one step |
| Life.LoneCellStaysDead | test/GameLogicTest.java:169-186 | a grid with one live cell is all dead after every number n+1 of steps |
| Engine.GameLogic.constructor | src/GameLogic.java:19-31 | both grids are fresh, distinct and rows x columns; the current grid holds exactly the cells named by the input's pairs |
| Engine.GameLogic.BuildNextGeneration | src/GameLogic.java:38-69 | the current grid becomes Step of the generation the call started from; both fields still name the same arrays |
| Engine.GameLogic.UpdateCell | src/GameLogic.java:41-64 | the four-way neighbour dispatch gives the reference count; the five-way rule then writes alive iff (alive and 2 or 3 neighbours) or (dead and exactly 3); no other scratch cell changes |
| Engine.GameLogic.CountNeighbours | src/GameLogic.java:79-114 | for a grid of at least 2 x 2, the nine-way corner, edge and interior split equals the reference count for every cell |
| Engine.GameLogic.CountNeighboursOnOneRowGrid | src/GameLogic.java:122-130 | on a one-row grid of at least two columns, the left, right and middle cases equal the reference count |
| Engine.GameLogic.CountNeighboursOnOneColumnGrid | src/GameLogic.java:138-146 | on a one-column grid of at least two rows, the top, bottom and middle cases equal the reference count |
| Engine.GameLogic.Copy2DArray | src/GameLogic.java:163-169 | the current grid, written in place, equals the scratch grid cell for cell; only the current grid is modified |
| Engine.GameLogic.GetCurrentGrid | src/GameLogic.java:174-176 | the array handed out is the current grid itself and never the scratch buffer |
| Startup.ValidInput | src/GameOfLife.java:136-154 | accepts iff the length is even and every even entry lies in [0, maxRows) and every odd entry in [0, maxColumns); the empty list is accepted |
| Startup.WellFormedIffSeedsInRange | src/GameOfLife.java:136-154 | the start-up check accepts exactly the lists whose pairs name cells inside the grid, which is what the constructor's indexing needs |
| Startup.Launch | src/GameOfLife.java:44-71 | an engine exists iff the input passes the check, and an existing engine holds the seeded grid |
| Patterns.BlinkerTurnsVertical | test/GameLogicTest.java:34-61 | the horizontal blinker (5,5), (5,6), (5,7) becomes (4,6), (5,6), (6,6) in one step |
| Patterns.BlinkerTurnsHorizontal | test/GameLogicTest.java:34-61 | the vertical blinker becomes the horizontal one in one step |
| Patterns.BlinkerPeriodTwo | test/GameLogicTest.java:34-61 | the blinker is horizontal after every even number of steps and vertical after every odd one |
| Patterns.CornerBlockIsStill | test/GameLogicTest.java:126-138 | a 2 x 2 block in the corner, including a fully alive 2 x 2 grid, is unchanged by a step |
| Patterns.CornerBlockForever | test/GameLogicTest.java:126-138 | the corner block is unchanged after any number of steps |
| Patterns.UncompletedBlockCompletes | test/GameLogicTest.java:79-90 | the three cells (0,1), (1,0), (1,1) become the full corner block in one step |
| Patterns.CornerStaysAlive | test/GameLogicTest.java:79-90 | after every number n+1 of steps the uncompleted block is the full block and (0,0) is alive |
| Patterns.CornerDies | test/GameLogicTest.java:94-110 | in a grid of at least 3 x 3, a cell alone in a corner is dead after one step |
| Patterns.FourCornersDie | test/GameLogicTest.java:94-110 | cells alone in the four corners of a grid of at least 3 x 3 are all dead after one step |
| Patterns.BeaconOverpopulation | test/GameLogicTest.java:154-166 | the beacon's inner cells (1,1) and (2,2) die of overpopulation |
| Patterns.ToadFirstStep | test/GameLogicTest.java:64-76 | in the toad, (3,2) dies and (0,0) stays dead after one step |
| GameLogicTest.LonelyCell | test/GameLogicTest.java:17-31 | after one step, the array obtained before the step is dead in every cell of the 23 x 35 grid |
| GameLogicTest.OneCellGrid | test/GameLogicTest.java:113-123 | the only cell of a 1 x 1 grid is dead after one step |
| GameLogicTest.GridWithTwoColumnsAndOneRow | test/GameLogicTest.java:141-151 | in a 1 x 2 grid the live cell (0,1) is dead after one step |
| GameLogicTest.BlinkerSeeds | test/GameLogicTest.java:35-36 | the flat list 5 5 5 6 5 7 passes the constructor's range condition on a 23 x 35 grid and seeds the horizontal blinker |
| GameLogicTest.BlinkerOscillator | test/GameLogicTest.java:34-61 | the held array shows the horizontal, then the vertical, then the horizontal phase again, with the cells the test inspects |

## Left out

- The JavaFX application is not modelled, because it is presentation over a library outside this model. This covers window set-up, drawing, the canvas and the `AnimationTimer` game loop with its frame throttle (src/GameOfLife.java:43-112).
- `convertArgs` is not modelled: it parses strings through the JDK. The model starts from the already parsed `seq<int>`.
- `closeGame` prints a message and exits. `Launch` models it as "no engine is constructed" (`null`).
- `maxRows` and `maxColumns` are parameters of `ValidInput` and `Launch`, not the constants 1 and 10 of src/GameOfLife.java:22-23.
- Integers are unbounded. Coordinates and counts never come near Java's 32-bit limits, and grid dimensions are `nat`, so Java's exception for a negative array size is not modelled.
- Grids are rectangular `array2<bool>` rather than jagged `boolean[][]`. The source always builds rectangular grids, so the lengths `currentGrid[row].length` and `currentGrid[0].length` are both the column count.
- Engine.GameLogic.constructor requires what the start-up check guarantees: even length and in-range pairs. On other input the Java constructor fails with an index exception, and that failure is not modelled.
- The tests' literal 100- and 100,000-iteration loops are stated as lemmas over every number of steps. These are `CornerBlockForever`, `CornerStaysAlive` and `LoneCellStaysDead`; they are not unrolled.
- Only the cells the tests inspect are modelled from the toad, beacon and four-corners tests, stated for every large enough grid. The full next generation of those patterns is not stated.
