/**
 * Known Life patterns and what one or more steps do to them, each stated for
 * every grid large enough to hold the pattern away from the far edges.
 */
module Patterns {
  import opened Life

  /** The horizontal blinker phase. */
  const HorizontalBlinker: set<(int, int)> := {(5, 5), (5, 6), (5, 7)}

  /** The vertical blinker phase. */
  const VerticalBlinker: set<(int, int)> := {(4, 6), (5, 6), (6, 6)}

  /** A 2 x 2 block in the top left corner. */
  const CornerBlock: set<(int, int)> := {(0, 0), (0, 1), (1, 0), (1, 1)}

  /** The corner block with (0,0) missing. */
  const UncompletedBlock: set<(int, int)> := {(0, 1), (1, 0), (1, 1)}

  /** The beacon: two blocks touching diagonally at (1,1) and (2,2). */
  const Beacon: set<(int, int)> := {(0, 0), (0, 1), (1, 0), (1, 1), (2, 2), (2, 3), (3, 2), (3, 3)}

  /** The toad: rows 3 and 4, shifted by one column. */
  const Toad: set<(int, int)> := {(3, 2), (3, 3), (3, 4), (4, 1), (4, 2), (4, 3)}

  /** One live cell in each corner of a rows x columns grid. */
  function FourCorners(rows: nat, columns: nat): set<(int, int)> {
    {(0, 0), (0, columns - 1), (rows - 1, columns - 1), (rows - 1, 0)}
  }

  /** The cells of the horizontal blinker the engine's tests look at. */
  lemma HorizontalBlinkerCells(rows: nat, columns: nat)
    requires rows >= 7 && columns >= 8
    ensures var g := Pattern(rows, columns, HorizontalBlinker);
            g[5][5] && g[5][6] && g[5][7] && !g[4][6] && !g[6][6]
  {
  }

  /** The cells of the vertical blinker the engine's tests look at. */
  lemma VerticalBlinkerCells(rows: nat, columns: nat)
    requires rows >= 7 && columns >= 8
    ensures var g := Pattern(rows, columns, VerticalBlinker);
            !g[5][5] && g[5][6] && !g[5][7] && g[4][6] && g[6][6]
  {
  }

  /** A cell of a pattern with no live cell in its 3 x 3 block is dead in the next generation. */
  lemma QuietCellStaysDead(rows: nat, columns: nat, cells: set<(int, int)>, r: int, c: int)
    requires 0 <= r < rows && 0 <= c < columns
    requires forall p :: p in cells ==> p.0 < r - 1 || p.0 > r + 1 || p.1 < c - 1 || p.1 > c + 1
    ensures !Step(Pattern(rows, columns, cells))[r][c]
  {
    StepPatternAt(rows, columns, cells, r, c);
  }

  /** Around the horizontal blinker, only the middle column survives or is born. */
  lemma HorizontalBlinkerRule(rows: nat, columns: nat, i: int, j: int)
    requires rows >= 7 && columns >= 8
    requires 4 <= i <= 6 && 4 <= j <= 8 && j < columns
    ensures NextState((i, j) in HorizontalBlinker, PatternCount(rows, columns, HorizontalBlinker, i, j)) <==> (i, j) in VerticalBlinker
  {
  }

  /** Around the vertical blinker, only the middle row survives or is born. */
  lemma VerticalBlinkerRule(rows: nat, columns: nat, i: int, j: int)
    requires rows >= 7 && columns >= 8
    requires 3 <= i <= 7 && i < rows && 5 <= j <= 7
    ensures NextState((i, j) in VerticalBlinker, PatternCount(rows, columns, VerticalBlinker, i, j)) <==> (i, j) in HorizontalBlinker
  {
  }

  /** The horizontal blinker turns vertical. */
  lemma BlinkerTurnsVertical(rows: nat, columns: nat)
    requires rows >= 7 && columns >= 8
    ensures Step(Pattern(rows, columns, HorizontalBlinker)) == Pattern(rows, columns, VerticalBlinker)
  {
    var h, v := Pattern(rows, columns, HorizontalBlinker), Pattern(rows, columns, VerticalBlinker);
    forall i, j | 0 <= i < rows && 0 <= j < columns
      ensures Step(h)[i][j] == v[i][j]
    {
      if i < 4 || i > 6 || j < 4 || j > 8 {
        QuietCellStaysDead(rows, columns, HorizontalBlinker, i, j);
      } else {
        StepPatternAt(rows, columns, HorizontalBlinker, i, j);
        HorizontalBlinkerRule(rows, columns, i, j);
      }
    }
    GridsEqual(Step(h), v, rows, columns);
  }

  /** The vertical blinker turns horizontal. */
  lemma BlinkerTurnsHorizontal(rows: nat, columns: nat)
    requires rows >= 7 && columns >= 8
    ensures Step(Pattern(rows, columns, VerticalBlinker)) == Pattern(rows, columns, HorizontalBlinker)
  {
    var h, v := Pattern(rows, columns, HorizontalBlinker), Pattern(rows, columns, VerticalBlinker);
    forall i, j | 0 <= i < rows && 0 <= j < columns
      ensures Step(v)[i][j] == h[i][j]
    {
      if i < 3 || i > 7 || j < 5 || j > 7 {
        QuietCellStaysDead(rows, columns, VerticalBlinker, i, j);
      } else {
        StepPatternAt(rows, columns, VerticalBlinker, i, j);
        VerticalBlinkerRule(rows, columns, i, j);
      }
    }
    GridsEqual(Step(v), h, rows, columns);
  }

  /** The blinker has period two: horizontal after every even number of steps, vertical after every odd one. */
  lemma {:induction false} BlinkerPeriodTwo(rows: nat, columns: nat, n: nat)
    requires rows >= 7 && columns >= 8
    ensures Generations(Pattern(rows, columns, HorizontalBlinker), 2 * n) == Pattern(rows, columns, HorizontalBlinker)
    ensures Generations(Pattern(rows, columns, HorizontalBlinker), 2 * n + 1) == Pattern(rows, columns, VerticalBlinker)
  {
    BlinkerTurnsVertical(rows, columns);
    if n > 0 {
      BlinkerTurnsHorizontal(rows, columns);
      BlinkerPeriodTwo(rows, columns, n - 1);
    }
  }

  /** Near the corner block, every live cell has three live neighbours and no dead cell has three. */
  lemma CornerBlockRule(rows: nat, columns: nat, i: int, j: int)
    requires rows >= 2 && columns >= 2
    requires 0 <= i <= 2 && i < rows && 0 <= j <= 2 && j < columns
    ensures NextState((i, j) in CornerBlock, PatternCount(rows, columns, CornerBlock, i, j)) <==> (i, j) in CornerBlock
  {
    if i == 0 {
      if j == 0 {} else if j == 1 {} else {}
    } else if i == 1 {
      if j == 0 {} else if j == 1 {} else {}
    } else {
      if j == 0 {} else if j == 1 {} else {}
    }
  }

  /** A block in the corner is a still life (a fully alive 2 x 2 grid included). */
  lemma CornerBlockIsStill(rows: nat, columns: nat)
    requires rows >= 2 && columns >= 2
    ensures Step(Pattern(rows, columns, CornerBlock)) == Pattern(rows, columns, CornerBlock)
  {
    var b := Pattern(rows, columns, CornerBlock);
    forall i, j | 0 <= i < rows && 0 <= j < columns
      ensures Step(b)[i][j] == b[i][j]
    {
      if i > 2 || j > 2 {
        QuietCellStaysDead(rows, columns, CornerBlock, i, j);
      } else {
        StepPatternAt(rows, columns, CornerBlock, i, j);
        CornerBlockRule(rows, columns, i, j);
      }
    }
    GridsEqual(Step(b), b, rows, columns);
  }

  /** A corner block stays unchanged for every number of steps. */
  lemma {:induction false} CornerBlockForever(rows: nat, columns: nat, n: nat)
    requires rows >= 2 && columns >= 2
    ensures Generations(Pattern(rows, columns, CornerBlock), n) == Pattern(rows, columns, CornerBlock)
  {
    if n > 0 {
      CornerBlockForever(rows, columns, n - 1);
      CornerBlockIsStill(rows, columns);
    }
  }

  /** Near the uncompleted block, the three live cells survive and (0,0) is born. */
  lemma UncompletedBlockRule(rows: nat, columns: nat, i: int, j: int)
    requires rows >= 2 && columns >= 2
    requires 0 <= i <= 2 && i < rows && 0 <= j <= 2 && j < columns
    ensures NextState((i, j) in UncompletedBlock, PatternCount(rows, columns, UncompletedBlock, i, j)) <==> (i, j) in CornerBlock
  {
    if i == 0 {
      if j == 0 {} else if j == 1 {} else {}
    } else if i == 1 {
      if j == 0 {} else if j == 1 {} else {}
    } else {
      if j == 0 {} else if j == 1 {} else {}
    }
  }

  /** Three live cells around the corner make (0,0) alive, completing a block. */
  lemma UncompletedBlockCompletes(rows: nat, columns: nat)
    requires rows >= 2 && columns >= 2
    ensures Step(Pattern(rows, columns, UncompletedBlock)) == Pattern(rows, columns, CornerBlock)
  {
    var t, b := Pattern(rows, columns, UncompletedBlock), Pattern(rows, columns, CornerBlock);
    forall i, j | 0 <= i < rows && 0 <= j < columns
      ensures Step(t)[i][j] == b[i][j]
    {
      if i > 2 || j > 2 {
        QuietCellStaysDead(rows, columns, UncompletedBlock, i, j);
      } else {
        StepPatternAt(rows, columns, UncompletedBlock, i, j);
        UncompletedBlockRule(rows, columns, i, j);
      }
    }
    GridsEqual(Step(t), b, rows, columns);
  }

  /** Once the uncompleted block has stepped, (0,0) is alive in every later generation. */
  lemma {:induction false} CornerStaysAlive(rows: nat, columns: nat, n: nat)
    requires rows >= 2 && columns >= 2
    ensures Generations(Pattern(rows, columns, UncompletedBlock), n + 1) == Pattern(rows, columns, CornerBlock)
    ensures Generations(Pattern(rows, columns, UncompletedBlock), n + 1)[0][0]
  {
    if n == 0 {
      UncompletedBlockCompletes(rows, columns);
    } else {
      CornerStaysAlive(rows, columns, n - 1);
      CornerBlockIsStill(rows, columns);
    }
  }

  /** A corner cell of FourCorners has no live neighbour in a grid of at least 3 x 3, so it dies. */
  lemma CornerDies(rows: nat, columns: nat, r: int, c: int)
    requires rows >= 3 && columns >= 3
    requires (r == 0 || r == rows - 1) && (c == 0 || c == columns - 1)
    ensures !Step(Pattern(rows, columns, FourCorners(rows, columns)))[r][c]
  {
    StepPatternAt(rows, columns, FourCorners(rows, columns), r, c);
  }

  /** Cells alone in the four corners of a grid of at least 3 x 3 all die. */
  lemma FourCornersDie(rows: nat, columns: nat)
    requires rows >= 3 && columns >= 3
    ensures var g := Step(Pattern(rows, columns, FourCorners(rows, columns)));
            !g[0][0] && !g[0][columns - 1] && !g[rows - 1][columns - 1] && !g[rows - 1][0]
  {
    CornerDies(rows, columns, 0, 0);
    CornerDies(rows, columns, 0, columns - 1);
    CornerDies(rows, columns, rows - 1, columns - 1);
    CornerDies(rows, columns, rows - 1, 0);
  }

  /** In the beacon the two inner cells (1,1) and (2,2) have four live neighbours each and die. */
  lemma BeaconOverpopulation(rows: nat, columns: nat)
    requires rows >= 4 && columns >= 4
    ensures !Step(Pattern(rows, columns, Beacon))[1][1] && !Step(Pattern(rows, columns, Beacon))[2][2]
  {
    StepPatternAt(rows, columns, Beacon, 1, 1);
    StepPatternAt(rows, columns, Beacon, 2, 2);
  }

  /** In the toad, the live cell (3,2) dies after one step and the dead corner (0,0) stays dead. */
  lemma ToadFirstStep(rows: nat, columns: nat)
    requires rows >= 5 && columns >= 5
    ensures !Step(Pattern(rows, columns, Toad))[3][2] && !Step(Pattern(rows, columns, Toad))[0][0]
  {
    StepPatternAt(rows, columns, Toad, 3, 2);
    StepPatternAt(rows, columns, Toad, 0, 0);
  }
}
