/**
 * The generation engine: two equally sized boolean grids, the current
 * generation and a scratch buffer for the next one. A step fills the scratch
 * buffer from the current grid alone and then copies it back cell by cell, so
 * the current grid stays the same array object for the engine's lifetime.
 */
module Engine {
  import opened Life

  /** The contents of an array as a grid value. */
  ghost function Cells(a: array2<bool>): (g: Grid)
    reads a
    ensures IsRect(g, a.Length0, a.Length1)
    ensures forall i, j :: 0 <= i < a.Length0 && 0 <= j < a.Length1 ==> g[i][j] == a[i, j]
  {
    seq(a.Length0, i requires 0 <= i < a.Length0 reads a =>
      seq(a.Length1, j requires 0 <= j < a.Length1 reads a => a[i, j]))
  }

  /** The flat list holds whole (row, column) pairs, each naming a cell of a rows x columns grid. */
  predicate SeedsInRange(input: seq<int>, rows: int, columns: int) {
    |input| % 2 == 0 &&
    forall k :: 0 <= k < |input| / 2 ==> 0 <= RowOf(input, k) < rows && 0 <= ColOf(input, k) < columns
  }

  class GameLogic {
    var currentGrid: array2<bool>
    var nextGenerationGrid: array2<bool>

    /** The two buffers are distinct arrays of the same dimensions. */
    ghost predicate Valid()
      reads this
    {
      currentGrid != nextGenerationGrid &&
      nextGenerationGrid.Length0 == currentGrid.Length0 &&
      nextGenerationGrid.Length1 == currentGrid.Length1
    }

    /** The current generation as a grid value. */
    ghost function Current(): Grid
      reads this, currentGrid
    {
      Cells(currentGrid)
    }

    /** The position (r, c) lies in the array and the array holds a live cell there. */
    predicate LiveAt(r: int, c: int)
      reads this, currentGrid
    {
      0 <= r < currentGrid.Length0 && 0 <= c < currentGrid.Length1 && currentGrid[r, c]
    }

    /** The reference count on Current(), read off the array offset by offset. */
    lemma CurrentNeighbours(row: int, column: int)
      ensures Neighbours(Current(), row, column) ==
        LivingCell(LiveAt(row - 1, column - 1)) + LivingCell(LiveAt(row - 1, column)) +
        LivingCell(LiveAt(row - 1, column + 1)) + LivingCell(LiveAt(row, column - 1)) +
        LivingCell(LiveAt(row, column + 1)) + LivingCell(LiveAt(row + 1, column - 1)) +
        LivingCell(LiveAt(row + 1, column)) + LivingCell(LiveAt(row + 1, column + 1))
    {
      NeighboursExpanded(Current(), row, column);
    }

    /** Allocates both grids dead, then sets alive every cell named by a pair of input. */
    constructor (rows: nat, columns: nat, input: seq<int>)
      requires SeedsInRange(input, rows, columns)
      ensures Valid() && fresh(currentGrid) && fresh(nextGenerationGrid)
      ensures currentGrid.Length0 == rows && currentGrid.Length1 == columns
      ensures Current() == Pattern(rows, columns, Pairs(input))
    {
      currentGrid := new bool[rows, columns]((_, _) => false);
      nextGenerationGrid := new bool[rows, columns]((_, _) => false);
      new;
      var i := 0;
      while i < |input|
        invariant 0 <= i <= |input| && i % 2 == 0
        invariant forall r, c :: 0 <= r < rows && 0 <= c < columns ==>
                    currentGrid[r, c] == ((r, c) in Pairs(input[..i]))
        modifies currentGrid
      {
        assert RowOf(input, i / 2) == input[i] && ColOf(input, i / 2) == input[i + 1];
        var row := input[i];
        var column := input[i + 1];
        currentGrid[row, column] := true;
        assert input[..i + 2][..i] == input[..i];
        i := i + 2;
      }
      assert input[..i] == input;
      GridsEqual(Current(), Pattern(rows, columns, Pairs(input)), rows, columns);
    }

    /**
     * Replaces the current generation by the next one. Every neighbour count
     * is read from the current grid while only the scratch grid is written,
     * so the result is Step of the generation the call started from.
     */
    method BuildNextGeneration()
      requires Valid()
      modifies currentGrid, nextGenerationGrid
      ensures Valid()
      ensures currentGrid == old(currentGrid) && nextGenerationGrid == old(nextGenerationGrid)
      ensures Current() == Step(old(Current()))
    {
      ghost var g := Current();
      ghost var next := Step(g);
      var row := 0;
      while row < currentGrid.Length0
        invariant 0 <= row <= currentGrid.Length0
        invariant Current() == g
        invariant forall i, j :: 0 <= i < row && 0 <= j < currentGrid.Length1 ==>
                    nextGenerationGrid[i, j] == next[i][j]
        modifies nextGenerationGrid
      {
        var column := 0;
        while column < currentGrid.Length1
          invariant 0 <= column <= currentGrid.Length1
          invariant Current() == g
          invariant forall i, j :: 0 <= i < row && 0 <= j < currentGrid.Length1 ==>
                      nextGenerationGrid[i, j] == next[i][j]
          invariant forall j :: 0 <= j < column ==> nextGenerationGrid[row, j] == next[row][j]
          modifies nextGenerationGrid
        {
          UpdateCell(row, column);
          StepAt(g, row, column);
          column := column + 1;
        }
        row := row + 1;
      }
      StepIsRect(g, currentGrid.Length0, currentGrid.Length1);
      GridsEqual(Cells(nextGenerationGrid), next, currentGrid.Length0, currentGrid.Length1);
      Copy2DArray();
    }

    /**
     * Computes one cell of the next generation: counts the cell's live
     * neighbours by the shape of the grid (none in a one-cell grid, the
     * one-row or one-column counter for a grid one cell thick, the nine-way
     * split otherwise), then applies the birth and survival rule. Only that
     * cell of the scratch grid changes.
     */
    method UpdateCell(row: int, column: int)
      requires Valid()
      requires 0 <= row < currentGrid.Length0 && 0 <= column < currentGrid.Length1
      modifies nextGenerationGrid
      ensures nextGenerationGrid[row, column] == NextState(currentGrid[row, column], Neighbours(Current(), row, column))
      ensures forall i, j :: 0 <= i < nextGenerationGrid.Length0 && 0 <= j < nextGenerationGrid.Length1 &&
                             (i != row || j != column) ==>
                nextGenerationGrid[i, j] == old(nextGenerationGrid[i, j])
    {
      var neighbours;
      if currentGrid.Length0 == 1 && currentGrid.Length1 == 1 {
        neighbours := 0;  // a one-cell grid has no neighbours
        NoNeighboursInSingleCellGrid(Current());
      } else if currentGrid.Length0 == 1 {
        neighbours := CountNeighboursOnOneRowGrid(column);
      } else if currentGrid.Length1 == 1 {
        neighbours := CountNeighboursOnOneColumnGrid(row);
      } else {
        neighbours := CountNeighbours(row, column);
      }
      assert neighbours == Neighbours(Current(), row, column);

      var livingCell := currentGrid[row, column];
      if livingCell && neighbours < 2 {
        nextGenerationGrid[row, column] := false;
      } else if livingCell && (neighbours == 2 || neighbours == 3) {
        nextGenerationGrid[row, column] := true;
      } else if livingCell && neighbours > 3 {
        nextGenerationGrid[row, column] := false;
      } else if !livingCell && neighbours == 3 {
        nextGenerationGrid[row, column] := true;
      } else {
        nextGenerationGrid[row, column] := false;
      }
    }

    /**
     * The live neighbours of (row, column) in a grid of at least two rows and
     * two columns, by a nine-way split into the four corners, the four edges
     * and the interior; it equals the reference count.
     */
    function CountNeighbours(row: int, column: int): (n: int)
      requires 2 <= currentGrid.Length0 && 2 <= currentGrid.Length1
      requires 0 <= row < currentGrid.Length0 && 0 <= column < currentGrid.Length1
      reads this, currentGrid
      ensures n == Neighbours(Current(), row, column)
    {
      CurrentNeighbours(row, column);
      if row == 0 && column == 0 then  // top left corner
        LivingCell(currentGrid[row, column + 1]) + LivingCell(currentGrid[row + 1, column + 1])
        + LivingCell(currentGrid[row + 1, column])
      else if row == 0 && column == currentGrid.Length1 - 1 then  // top right corner
        LivingCell(currentGrid[row + 1, column]) + LivingCell(currentGrid[row + 1, column - 1])
        + LivingCell(currentGrid[row, column - 1])
      else if row == currentGrid.Length0 - 1 && column == currentGrid.Length1 - 1 then  // bottom right corner
        LivingCell(currentGrid[row, column - 1]) + LivingCell(currentGrid[row - 1, column - 1])
        + LivingCell(currentGrid[row - 1, column])
      else if row == currentGrid.Length0 - 1 && column == 0 then  // bottom left corner
        LivingCell(currentGrid[row, column + 1]) + LivingCell(currentGrid[row - 1, column])
        + LivingCell(currentGrid[row - 1, column + 1])
      else if row == 0 then  // top edge
        LivingCell(currentGrid[row, column + 1]) + LivingCell(currentGrid[row + 1, column + 1])
        + LivingCell(currentGrid[row + 1, column]) + LivingCell(currentGrid[row + 1, column - 1])
        + LivingCell(currentGrid[row, column - 1])
      else if column == currentGrid.Length1 - 1 then  // right edge
        LivingCell(currentGrid[row - 1, column]) + LivingCell(currentGrid[row + 1, column])
        + LivingCell(currentGrid[row + 1, column - 1]) + LivingCell(currentGrid[row, column - 1])
        + LivingCell(currentGrid[row - 1, column - 1])
      else if row == currentGrid.Length0 - 1 then  // bottom edge
        LivingCell(currentGrid[row - 1, column]) + LivingCell(currentGrid[row - 1, column + 1])
        + LivingCell(currentGrid[row, column + 1]) + LivingCell(currentGrid[row, column - 1])
        + LivingCell(currentGrid[row - 1, column - 1])
      else if column == 0 then  // left edge
        LivingCell(currentGrid[row - 1, column]) + LivingCell(currentGrid[row - 1, column + 1])
        + LivingCell(currentGrid[row, column + 1]) + LivingCell(currentGrid[row + 1, column + 1])
        + LivingCell(currentGrid[row + 1, column])
      else  // interior: neighbours in all eight directions
        LivingCell(currentGrid[row - 1, column]) + LivingCell(currentGrid[row - 1, column + 1])
        + LivingCell(currentGrid[row, column + 1]) + LivingCell(currentGrid[row + 1, column + 1])
        + LivingCell(currentGrid[row + 1, column]) + LivingCell(currentGrid[row + 1, column - 1])
        + LivingCell(currentGrid[row, column - 1]) + LivingCell(currentGrid[row - 1, column - 1])
    }

    /** The live neighbours of a cell in a grid of one row and several columns; it equals the reference count. */
    function CountNeighboursOnOneRowGrid(column: int): (n: int)
      requires currentGrid.Length0 == 1 && 2 <= currentGrid.Length1
      requires 0 <= column < currentGrid.Length1
      reads this, currentGrid
      ensures n == Neighbours(Current(), 0, column)
    {
      CurrentNeighbours(0, column);
      if column == 0 then  // leftmost cell
        LivingCell(currentGrid[0, column + 1])
      else if column == currentGrid.Length1 - 1 then  // rightmost cell
        LivingCell(currentGrid[0, column - 1])
      else
        LivingCell(currentGrid[0, column - 1]) + LivingCell(currentGrid[0, column + 1])
    }

    /** The live neighbours of a cell in a grid of one column and several rows; it equals the reference count. */
    function CountNeighboursOnOneColumnGrid(row: int): (n: int)
      requires 2 <= currentGrid.Length0 && currentGrid.Length1 == 1
      requires 0 <= row < currentGrid.Length0
      reads this, currentGrid
      ensures n == Neighbours(Current(), row, 0)
    {
      CurrentNeighbours(row, 0);
      if row == 0 then  // top cell
        LivingCell(currentGrid[row + 1, 0])
      else if row == currentGrid.Length0 - 1 then  // bottom cell
        LivingCell(currentGrid[row - 1, 0])
      else
        LivingCell(currentGrid[row + 1, 0]) + LivingCell(currentGrid[row - 1, 0])
    }

    /** Overwrites the current grid, cell by cell, with the scratch grid. */
    method Copy2DArray()
      requires Valid()
      modifies currentGrid
      ensures Current() == Cells(nextGenerationGrid)
    {
      var row := 0;
      while row < currentGrid.Length0
        invariant 0 <= row <= currentGrid.Length0
        invariant forall i, j :: 0 <= i < row && 0 <= j < currentGrid.Length1 ==>
                    currentGrid[i, j] == nextGenerationGrid[i, j]
      {
        var column := 0;
        while column < currentGrid.Length1
          invariant 0 <= column <= currentGrid.Length1
          invariant forall i, j :: 0 <= i < row && 0 <= j < currentGrid.Length1 ==>
                      currentGrid[i, j] == nextGenerationGrid[i, j]
          invariant forall j :: 0 <= j < column ==> currentGrid[row, j] == nextGenerationGrid[row, j]
        {
          currentGrid[row, column] := nextGenerationGrid[row, column];
          column := column + 1;
        }
        row := row + 1;
      }
      GridsEqual(Current(), Cells(nextGenerationGrid), currentGrid.Length0, currentGrid.Length1);
    }

    /** The current generation's array itself, never the scratch buffer. */
    function GetCurrentGrid(): (grid: array2<bool>)
      requires Valid()
      reads this
      ensures grid == currentGrid && grid != nextGenerationGrid
    {
      currentGrid
    }
  }
}
