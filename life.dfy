/**
 * The mathematical model of Conway's Game of Life on a finite grid that does
 * not wrap at its edges: grids as values, the reference neighbour count (the
 * live cells among the eight in-range offsets), the birth/survival rule and
 * the synchronous step.
 */
module Life {

  /** A grid of cells, indexed as g[row][column]; true is alive. */
  type Grid = seq<seq<bool>>

  /** g has exactly rows rows of exactly columns cells each. */
  predicate IsRect(g: Grid, rows: nat, columns: nat) {
    |g| == rows && forall i :: 0 <= i < rows ==> |g[i]| == columns
  }

  /** 1 for a live cell, 0 for a dead one. */
  function LivingCell(cell: bool): (n: nat)
    ensures n <= 1
    ensures n == 1 <==> cell
  {
    if cell then 1 else 0
  }

  /** The cell (r, c) exists in g and is alive; positions outside the grid are dead. */
  predicate Alive(g: Grid, r: int, c: int) {
    0 <= r < |g| && 0 <= c < |g[r]| && g[r][c]
  }

  /** The eight relative positions of a cell's neighbours. */
  const Offsets: seq<(int, int)> :=
    [(-1, -1), (-1, 0), (-1, 1), (0, -1), (0, 1), (1, -1), (1, 0), (1, 1)]

  /** The number of offsets d in offsets for which (r, c) + d is a live cell of g. */
  function CountAlive(g: Grid, r: int, c: int, offsets: seq<(int, int)>): (n: nat)
    ensures n <= |offsets|
  {
    if offsets == [] then 0
    else LivingCell(Alive(g, r + offsets[0].0, c + offsets[0].1)) + CountAlive(g, r, c, offsets[1..])
  }

  /** The reference neighbour count: the live cells among the eight surrounding positions that lie in the grid. */
  function Neighbours(g: Grid, r: int, c: int): (n: nat)
    ensures n <= 8
  {
    CountAlive(g, r, c, Offsets)
  }

  /** Conway's rule: a live cell survives with 2 or 3 live neighbours, a dead cell is born with exactly 3. */
  predicate NextState(living: bool, neighbours: int) {
    (living && (neighbours == 2 || neighbours == 3)) || (!living && neighbours == 3)
  }

  /** One generation: every cell's next state computed from g alone. */
  function Step(g: Grid): (next: Grid)
    ensures |next| == |g|
    ensures forall i :: 0 <= i < |g| ==> |next[i]| == |g[i]|
  {
    seq(|g|, i requires 0 <= i < |g| =>
      seq(|g[i]|, j requires 0 <= j < |g[i]| => NextState(g[i][j], Neighbours(g, i, j))))
  }

  /** The grid after n steps. */
  function Generations(g: Grid, n: nat): Grid {
    if n == 0 then g else Step(Generations(g, n - 1))
  }

  /** The rows x columns grid whose live cells are exactly the positions in cells. */
  function Pattern(rows: nat, columns: nat, cells: set<(int, int)>): (g: Grid)
    ensures IsRect(g, rows, columns)
  {
    seq(rows, i => seq(columns, j => (i, j) in cells))
  }

  /** The rows x columns grid with no live cell. */
  function Dead(rows: nat, columns: nat): Grid {
    Pattern(rows, columns, {})
  }

  /** The row of the k-th (row, column) pair of a flat coordinate list. */
  function RowOf(input: seq<int>, k: nat): int
    requires 2 * k + 1 < |input|
  {
    input[2 * k]
  }

  /** The column of the k-th (row, column) pair of a flat coordinate list. */
  function ColOf(input: seq<int>, k: nat): int
    requires 2 * k + 1 < |input|
  {
    input[2 * k + 1]
  }

  /** The set of (row, column) pairs of a flat coordinate list, read two entries at a time. */
  function Pairs(input: seq<int>): set<(int, int)>
    decreases |input|
  {
    if |input| < 2 then {}
    else Pairs(input[..|input| - 2]) + {(input[|input| - 2], input[|input| - 1])}
  }

  // ---------------------------------------------------------------------
  // Lemmas

  /** A position is one of the seeded cells iff some pair k of the flat list names it. */
  lemma {:induction false} PairsMembers(input: seq<int>, r: int, c: int)
    requires |input| % 2 == 0
    ensures (r, c) in Pairs(input) <==>
            exists k :: 0 <= k < |input| / 2 && RowOf(input, k) == r && ColOf(input, k) == c
  {
    if |input| >= 2 {
      var front := input[..|input| - 2];
      var last := |input| / 2 - 1;
      PairsMembers(front, r, c);
      assert RowOf(input, last) == input[|input| - 2] && ColOf(input, last) == input[|input| - 1];
      if (r, c) in Pairs(front) {
        var k :| 0 <= k < |front| / 2 && RowOf(front, k) == r && ColOf(front, k) == c;
        assert RowOf(input, k) == r && ColOf(input, k) == c;
      }
      if exists k :: 0 <= k < |input| / 2 && RowOf(input, k) == r && ColOf(input, k) == c {
        var k :| 0 <= k < |input| / 2 && RowOf(input, k) == r && ColOf(input, k) == c;
        if k < last {
          assert RowOf(front, k) == r && ColOf(front, k) == c;
        }
      }
    }
  }

  /** The reference count written out as the sum over the eight offsets. */
  lemma NeighboursExpanded(g: Grid, r: int, c: int)
    ensures Neighbours(g, r, c) ==
      LivingCell(Alive(g, r - 1, c - 1)) + LivingCell(Alive(g, r - 1, c)) + LivingCell(Alive(g, r - 1, c + 1)) +
      LivingCell(Alive(g, r, c - 1)) + LivingCell(Alive(g, r, c + 1)) +
      LivingCell(Alive(g, r + 1, c - 1)) + LivingCell(Alive(g, r + 1, c)) + LivingCell(Alive(g, r + 1, c + 1))
  {
    var o := Offsets;
    assert o[1..] == [(-1, 0), (-1, 1), (0, -1), (0, 1), (1, -1), (1, 0), (1, 1)];
    assert o[1..][1..] == [(-1, 1), (0, -1), (0, 1), (1, -1), (1, 0), (1, 1)];
    assert o[1..][1..][1..] == [(0, -1), (0, 1), (1, -1), (1, 0), (1, 1)];
    assert o[1..][1..][1..][1..] == [(0, 1), (1, -1), (1, 0), (1, 1)];
    assert o[1..][1..][1..][1..][1..] == [(1, -1), (1, 0), (1, 1)];
    assert o[1..][1..][1..][1..][1..][1..] == [(1, 0), (1, 1)];
    assert o[1..][1..][1..][1..][1..][1..][1..] == [(1, 1)];
    var s8 := CountAlive(g, r, c, [(1, 1)]);
    var s7 := CountAlive(g, r, c, [(1, 0), (1, 1)]);
    var s6 := CountAlive(g, r, c, [(1, -1), (1, 0), (1, 1)]);
    var s5 := CountAlive(g, r, c, [(0, 1), (1, -1), (1, 0), (1, 1)]);
    var s4 := CountAlive(g, r, c, [(0, -1), (0, 1), (1, -1), (1, 0), (1, 1)]);
    var s3 := CountAlive(g, r, c, [(-1, 1), (0, -1), (0, 1), (1, -1), (1, 0), (1, 1)]);
    var s2 := CountAlive(g, r, c, [(-1, 0), (-1, 1), (0, -1), (0, 1), (1, -1), (1, 0), (1, 1)]);
    assert s8 == LivingCell(Alive(g, r + 1, c + 1));
    assert s7 == LivingCell(Alive(g, r + 1, c)) + s8;
    assert s6 == LivingCell(Alive(g, r + 1, c - 1)) + s7;
    assert s5 == LivingCell(Alive(g, r, c + 1)) + s6;
    assert s4 == LivingCell(Alive(g, r, c - 1)) + s5;
    assert s3 == LivingCell(Alive(g, r - 1, c + 1)) + s4;
    assert s2 == LivingCell(Alive(g, r - 1, c)) + s3;
  }

  /** Two grids of the same shape that agree on every cell are equal. */
  lemma GridsEqual(a: Grid, b: Grid, rows: nat, columns: nat)
    requires IsRect(a, rows, columns) && IsRect(b, rows, columns)
    requires forall i, j :: 0 <= i < rows && 0 <= j < columns ==> a[i][j] == b[i][j]
    ensures a == b
  {
    forall i | 0 <= i < rows ensures a[i] == b[i] {
      assert forall j :: 0 <= j < columns ==> a[i][j] == b[i][j];
    }
  }

  /** The cell (i, j) of Step(g) is the rule applied to g[i][j] and its reference neighbour count. */
  lemma StepAt(g: Grid, i: int, j: int)
    requires 0 <= i < |g| && 0 <= j < |g[i]|
    ensures Step(g)[i][j] == NextState(g[i][j], Neighbours(g, i, j))
  {
  }

  /** Step keeps a grid's dimensions. */
  lemma StepIsRect(g: Grid, rows: nat, columns: nat)
    requires IsRect(g, rows, columns)
    ensures IsRect(Step(g), rows, columns)
  {
  }

  /** (r, c) lies in the rows x columns grid and belongs to cells. */
  predicate LiveIn(rows: nat, columns: nat, cells: set<(int, int)>, r: int, c: int) {
    0 <= r < rows && 0 <= c < columns && (r, c) in cells
  }

  /** The live neighbours of (r, c) in a pattern grid, read off the set of live cells offset by offset. */
  function PatternCount(rows: nat, columns: nat, cells: set<(int, int)>, r: int, c: int): nat {
    LivingCell(LiveIn(rows, columns, cells, r - 1, c - 1)) + LivingCell(LiveIn(rows, columns, cells, r - 1, c)) +
    LivingCell(LiveIn(rows, columns, cells, r - 1, c + 1)) + LivingCell(LiveIn(rows, columns, cells, r, c - 1)) +
    LivingCell(LiveIn(rows, columns, cells, r, c + 1)) + LivingCell(LiveIn(rows, columns, cells, r + 1, c - 1)) +
    LivingCell(LiveIn(rows, columns, cells, r + 1, c)) + LivingCell(LiveIn(rows, columns, cells, r + 1, c + 1))
  }

  /** The reference count on a pattern grid agrees with the count read off its set of live cells. */
  lemma PatternNeighbours(rows: nat, columns: nat, cells: set<(int, int)>, r: int, c: int)
    ensures Neighbours(Pattern(rows, columns, cells), r, c) == PatternCount(rows, columns, cells, r, c)
  {
    NeighboursExpanded(Pattern(rows, columns, cells), r, c);
  }

  /** The cell (r, c) of the step of a pattern grid, by the rule and the pattern's eight neighbours. */
  lemma StepPatternAt(rows: nat, columns: nat, cells: set<(int, int)>, r: int, c: int)
    requires 0 <= r < rows && 0 <= c < columns
    ensures Step(Pattern(rows, columns, cells))[r][c] == NextState((r, c) in cells, PatternCount(rows, columns, cells, r, c))
  {
    PatternNeighbours(rows, columns, cells, r, c);
    StepAt(Pattern(rows, columns, cells), r, c);
  }

  /** In a 1 x 1 grid the only cell has no neighbours. */
  lemma NoNeighboursInSingleCellGrid(g: Grid)
    requires IsRect(g, 1, 1)
    ensures Neighbours(g, 0, 0) == 0
  {
    NeighboursExpanded(g, 0, 0);
  }

  /** The all-dead grid is a still life. */
  lemma DeadIsFixedPoint(rows: nat, columns: nat)
    ensures Step(Dead(rows, columns)) == Dead(rows, columns)
  {
    var d := Dead(rows, columns);
    forall i, j | 0 <= i < rows && 0 <= j < columns
      ensures Step(d)[i][j] == d[i][j]
    {
      NeighboursExpanded(d, i, j);
    }
    GridsEqual(Step(d), d, rows, columns);
  }

  /** Once every cell is dead, every later generation is dead too. */
  lemma {:induction false} DeadForever(rows: nat, columns: nat, n: nat)
    ensures Generations(Dead(rows, columns), n) == Dead(rows, columns)
  {
    if n > 0 {
      DeadForever(rows, columns, n - 1);
      DeadIsFixedPoint(rows, columns);
    }
  }

  /** A lone live cell dies after one step, whatever the size of the grid (1 x 1 and 1 x N included). */
  lemma LoneCellDies(rows: nat, columns: nat, r: int, c: int)
    ensures Step(Pattern(rows, columns, {(r, c)})) == Dead(rows, columns)
  {
    var g := Pattern(rows, columns, {(r, c)});
    forall i, j | 0 <= i < rows && 0 <= j < columns
      ensures Step(g)[i][j] == false
    {
      LoneCellNeighbourDies(rows, columns, r, c, i, j);
    }
    GridsEqual(Step(g), Dead(rows, columns), rows, columns);
  }

  /** Every cell of a grid holding one live cell has at most one live neighbour, so none is alive next. */
  lemma LoneCellNeighbourDies(rows: nat, columns: nat, r: int, c: int, i: int, j: int)
    requires 0 <= i < rows && 0 <= j < columns
    ensures !Step(Pattern(rows, columns, {(r, c)}))[i][j]
  {
    StepPatternAt(rows, columns, {(r, c)}, i, j);
  }

  /** A lone live cell, once dead, stays dead for every later generation. */
  lemma {:induction false} LoneCellStaysDead(rows: nat, columns: nat, r: int, c: int, n: nat)
    ensures Generations(Pattern(rows, columns, {(r, c)}), n + 1) == Dead(rows, columns)
  {
    var g := Pattern(rows, columns, {(r, c)});
    if n == 0 {
      LoneCellDies(rows, columns, r, c);
    } else {
      LoneCellStaysDead(rows, columns, r, c, n - 1);
      DeadIsFixedPoint(rows, columns);
    }
  }
}
