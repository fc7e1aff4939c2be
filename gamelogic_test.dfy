/**
 * Client scenarios that drive the engine as its tests do: construct, take the
 * array returned by GetCurrentGrid, step, and read the new generation through
 * that same array.
 */
module GameLogicTest {
  import opened Life
  import opened Engine
  import Patterns

  /** A lone cell at (0,0) of a 23 x 35 grid: after one step no cell of the held array is alive. */
  method LonelyCell() returns (grid: array2<bool>)
    ensures grid.Length0 == 23 && grid.Length1 == 35
    ensures forall r, c :: 0 <= r < 23 && 0 <= c < 35 ==> !grid[r, c]
  {
    var gl := new GameLogic(23, 35, [0, 0]);
    assert Pairs([0, 0]) == {(0, 0)};
    grid := gl.GetCurrentGrid();
    assert grid[0, 0];
    gl.BuildNextGeneration();
    LoneCellDies(23, 35, 0, 0);
  }

  /** A 1 x 1 grid whose only cell is alive: after one step it is dead. */
  method OneCellGrid() returns (grid: array2<bool>)
    ensures grid.Length0 == 1 && grid.Length1 == 1
    ensures !grid[0, 0]
  {
    var gl := new GameLogic(1, 1, [0, 0]);
    assert Pairs([0, 0]) == {(0, 0)};
    grid := gl.GetCurrentGrid();
    assert grid[0, 0];
    gl.BuildNextGeneration();
    LoneCellDies(1, 1, 0, 0);
  }

  /** A 1 x 2 grid with (0,1) alive: after one step (0,1) is dead. */
  method GridWithTwoColumnsAndOneRow() returns (grid: array2<bool>)
    ensures grid.Length0 == 1 && grid.Length1 == 2
    ensures !grid[0, 1]
  {
    var gl := new GameLogic(1, 2, [0, 1]);
    assert Pairs([0, 1]) == {(0, 1)};
    grid := gl.GetCurrentGrid();
    assert grid[0, 1];
    gl.BuildNextGeneration();
    LoneCellDies(1, 2, 0, 1);
  }

  /** The flat list 5 5 5 6 5 7 seeds the horizontal blinker. */
  lemma BlinkerSeeds()
    ensures Engine.SeedsInRange([5, 5, 5, 6, 5, 7], 23, 35)
    ensures Pairs([5, 5, 5, 6, 5, 7]) == Patterns.HorizontalBlinker
  {
    assert [5, 5, 5, 6, 5, 7][..4] == [5, 5, 5, 6];
    assert [5, 5, 5, 6][..2] == [5, 5];
  }

  /**
   * The blinker (5,5), (5,6), (5,7) on a 23 x 35 grid: after one step the held
   * array shows the vertical phase, after two the horizontal one again.
   */
  method BlinkerOscillator() returns (grid: array2<bool>)
    ensures grid.Length0 == 23 && grid.Length1 == 35
    ensures Cells(grid) == Pattern(23, 35, Patterns.HorizontalBlinker)
    ensures grid[5, 5] && grid[5, 6] && grid[5, 7] && !grid[4, 6] && !grid[6, 6]
  {
    var input := [5, 5, 5, 6, 5, 7];
    BlinkerSeeds();
    var gl := new GameLogic(23, 35, input);
    grid := gl.GetCurrentGrid();
    ghost var h, v := Pattern(23, 35, Patterns.HorizontalBlinker), Pattern(23, 35, Patterns.VerticalBlinker);
    assert Cells(grid) == h;
    Patterns.HorizontalBlinkerCells(23, 35);
    assert grid[5, 5] && grid[5, 6] && grid[5, 7] && !grid[4, 6] && !grid[6, 6];
    Patterns.BlinkerTurnsVertical(23, 35);
    gl.BuildNextGeneration();
    assert Cells(grid) == v;
    Patterns.VerticalBlinkerCells(23, 35);
    assert !grid[5, 5] && grid[5, 6] && !grid[5, 7] && grid[4, 6] && grid[6, 6];
    Patterns.BlinkerTurnsHorizontal(23, 35);
    gl.BuildNextGeneration();
    assert Cells(grid) == h;
  }
}
