/**
 * Start-up input validation: the flat list of integers given on the command
 * line must be whole (row, column) pairs naming cells of the grid, or the
 * engine is never constructed.
 */
module Startup {
  import opened Life
  import Engine

  /** Entry i of a flat coordinate list lies in the range for its parity: a row at even i, a column at odd i. */
  predicate EntryInRange(input: seq<int>, i: int, maxRows: int, maxColumns: int)
    requires 0 <= i < |input|
  {
    if i % 2 == 0 then 0 <= input[i] < maxRows else 0 <= input[i] < maxColumns
  }

  /** The input is well formed: even length, and every entry in the range for its parity. */
  predicate WellFormed(input: seq<int>, maxRows: int, maxColumns: int) {
    |input| % 2 == 0 && forall i :: 0 <= i < |input| ==> EntryInRange(input, i, maxRows, maxColumns)
  }

  /**
   * The start-up check: rejects an odd-length list at once, then scans the
   * entries and rejects at the first row or column out of range.
   */
  method ValidInput(input: seq<int>, maxRows: int, maxColumns: int) returns (valid: bool)
    ensures valid == WellFormed(input, maxRows, maxColumns)
  {
    if |input| % 2 != 0 {  // every cell needs a row and a column
      return false;
    }
    var i := 0;
    while i < |input|
      invariant 0 <= i <= |input|
      invariant forall k :: 0 <= k < i ==> EntryInRange(input, k, maxRows, maxColumns)
    {
      if i % 2 == 0 {  // a row number
        if input[i] < 0 || input[i] >= maxRows {
          assert !EntryInRange(input, i, maxRows, maxColumns);
          return false;
        }
      } else {  // a column number
        if input[i] < 0 || input[i] >= maxColumns {
          assert !EntryInRange(input, i, maxRows, maxColumns);
          return false;
        }
      }
      i := i + 1;
    }
    return true;
  }

  /**
   * The start-up check accepts exactly the lists on which the engine's
   * constructor reads whole pairs and indexes only cells inside the grid.
   */
  lemma WellFormedIffSeedsInRange(input: seq<int>, rows: int, columns: int)
    ensures WellFormed(input, rows, columns) <==> Engine.SeedsInRange(input, rows, columns)
  {
    if WellFormed(input, rows, columns) {
      forall k | 0 <= k < |input| / 2
        ensures 0 <= RowOf(input, k) < rows && 0 <= ColOf(input, k) < columns
      {
        assert EntryInRange(input, 2 * k, rows, columns);
        assert EntryInRange(input, 2 * k + 1, rows, columns);
      }
    }
    if Engine.SeedsInRange(input, rows, columns) {
      forall i | 0 <= i < |input|
        ensures EntryInRange(input, i, rows, columns)
      {
        var k := i / 2;
        assert 0 <= RowOf(input, k) < rows && 0 <= ColOf(input, k) < columns;
      }
    }
  }

  /**
   * Validates the input, and only if it is well formed constructs the engine
   * on a maxRows x maxColumns grid seeded from it; on invalid input no engine
   * exists.
   */
  method Launch(maxRows: nat, maxColumns: nat, input: seq<int>) returns (engine: Engine.GameLogic?)
    ensures (engine != null) == WellFormed(input, maxRows, maxColumns)
    ensures engine != null ==>
              engine.Valid() &&
              engine.currentGrid.Length0 == maxRows && engine.currentGrid.Length1 == maxColumns &&
              engine.Current() == Pattern(maxRows, maxColumns, Pairs(input))
  {
    var valid := ValidInput(input, maxRows, maxColumns);
    if !valid {
      return null;
    }
    WellFormedIffSeedsInRange(input, maxRows, maxColumns);
    engine := new Engine.GameLogic(maxRows, maxColumns, input);
  }
}
