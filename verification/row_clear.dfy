/** `clear_full_rows` of logic.js: drop every row whose cells are all truthy, then put
    rows of ten `null`s in front until there are twenty rows. The grid there is a list
    of rows, each a list of cells holding `null` or a material object; row 0 is the
    bottom (a falling piece's row index decreases, and a row index below 0 is the floor).
    Putting the padding in front therefore puts it at the bottom: see
    `AsWrittenRowsStayUp` and the corrected `ClearFullRowsFalling`. */
module RowClear {
  import opened RowFilter

  /** A cell: `null` (falsy) or a material (an object, always truthy). */
  datatype Cell = Null | Material(id: nat)

  /** The width of a padding row and the row count padding stops at. */
  const RowWidth := 10
  const MinRows := 20

  type Rows = seq<seq<Cell>>

  /** `Array(10).fill(null)`. */
  function NullRow(): (row: seq<Cell>)
    ensures |row| == RowWidth && forall i :: 0 <= i < |row| ==> row[i] == Null
    ensures !IsFull(row, Null)
  {
    var row := seq(RowWidth, _ => Null);
    assert row[0] == Null;
    row
  }

  /** `n` padding rows. */
  function NullRows(n: nat): (rows: Rows)
    ensures |rows| == n && forall i :: 0 <= i < n ==> rows[i] == NullRow()
  {
    seq(n, _ => NullRow())
  }

  /** The `unshift` loop: while fewer than twenty rows, put a `null` row at index 0. */
  function PadFront(grid: Rows): (padded: Rows)
    ensures |grid| < MinRows ==> |padded| == MinRows
    ensures |grid| >= MinRows ==> padded == grid
    ensures padded == NullRows(|padded| - |grid|) + grid
    decreases MinRows - |grid|
  {
    if |grid| < MinRows then
      var longer := PadFront([NullRow()] + grid);
      assert longer == NullRows(|longer| - |grid|) + grid by {
        var k := |longer| - (|grid| + 1);
        assert NullRows(k) + ([NullRow()] + grid) == NullRows(k + 1) + grid;
      }
      longer
    else grid
  }

  /** `clear_full_rows`: the new grid and the number of rows removed. `clear_full_rows` only logs
      the count; here it is returned. */
  function ClearFullRows(grid: Rows): (r: (Rows, nat))
    ensures r.1 == FullCount(grid, Null) && r.1 <= |grid|
    ensures |grid| - r.1 < MinRows ==> |r.0| == MinRows
    ensures |grid| - r.1 >= MinRows ==> |r.0| == |grid| - r.1
    ensures r.0 == NullRows(|r.0| - (|grid| - r.1)) + Keep(grid, Null)
    ensures forall i :: 0 <= i < |r.0| ==> !IsFull(r.0[i], Null)
  {
    var kept := Keep(grid, Null);
    var padded := PadFront(kept);
    KeptRows(grid, Null);
    assert forall i :: 0 <= i < |padded| ==> !IsFull(padded[i], Null) by {
      var pad := |padded| - |kept|;
      forall i | 0 <= i < |padded| ensures !IsFull(padded[i], Null) {
        if i < pad {
          assert padded[i] == NullRows(pad)[i];
        } else {
          assert padded[i] == kept[i - pad];
        }
      }
    }
    (padded, FullCount(grid, Null))
  }

  /** The loop of `clear_full_rows`, row by row: a `filter` that counts what it drops, then `unshift`
      until twenty rows. */
  method ClearFullRowsLoop(grid: Rows) returns (result: Rows, cleared: nat)
    ensures (result, cleared) == ClearFullRows(grid)
  {
    var kept: Rows := [];
    cleared := 0;
    var i := 0;
    while i < |grid|
      invariant 0 <= i <= |grid|
      invariant kept == Keep(grid[..i], Null)
      invariant cleared == FullCount(grid[..i], Null)
    {
      assert grid[..i + 1] == grid[..i] + [grid[i]];
      KeepAppend(grid[..i], [grid[i]], Null);
      KeepSingle(grid[i], Null);
      if IsFull(grid[i], Null) {
        cleared := cleared + 1;
      } else {
        kept := kept + [grid[i]];
      }
      i := i + 1;
    }
    assert grid[..i] == grid;
    result := kept;
    while |result| < MinRows
      invariant PadFront(result) == PadFront(kept)
      decreases MinRows - |result|
    {
      result := [NullRow()] + result;
    }
  }

  /** Every row that was not full is still there, in the same order: row `y` moves down
      the list by the full rows before it and up by the padding. */
  lemma ClearKeepsOrder(grid: Rows, y: nat)
    requires y < |grid| && !IsFull(grid[y], Null)
    ensures var (result, cleared) := ClearFullRows(grid);
      var pad := |result| - (|grid| - cleared);
      y - FullCount(grid[..y], Null) + pad < |result|
      && result[y - FullCount(grid[..y], Null) + pad] == grid[y]
  {
    var (result, cleared) := ClearFullRows(grid);
    var pad := |result| - (|grid| - cleared);
    KeepPosition(grid, Null, y);
    var j := y - FullCount(grid[..y], Null);
    assert result[j + pad] == Keep(grid, Null)[j];
  }

  /** A row is in the result exactly when it was a non-full input row or is a padding row
      that was needed. */
  lemma ClearMembers(grid: Rows, row: seq<Cell>)
    ensures var (result, cleared) := ClearFullRows(grid);
      row in result <==>
        (row in grid && !IsFull(row, Null)) || (row == NullRow() && |grid| - cleared < MinRows)
  {
    ClearMembersFrom(grid, row);
    ClearMembersTo(grid, row);
  }

  /** Every row of the result is a kept row or padding. */
  lemma ClearMembersFrom(grid: Rows, row: seq<Cell>)
    ensures var (result, cleared) := ClearFullRows(grid);
      row in result ==>
        (row in grid && !IsFull(row, Null)) || (row == NullRow() && |grid| - cleared < MinRows)
  {
    var (result, cleared) := ClearFullRows(grid);
    var pad := |result| - (|grid| - cleared);
    var kept := Keep(grid, Null);
    KeepMembers(grid, Null, row);
    if row in result {
      var i :| 0 <= i < |result| && result[i] == row;
      if i >= pad {
        assert row == kept[i - pad];
      } else {
        assert row == NullRows(pad)[i];
      }
    }
  }

  /** Every kept row, and the padding row when padding was needed, is in the result. */
  lemma ClearMembersTo(grid: Rows, row: seq<Cell>)
    ensures var (result, cleared) := ClearFullRows(grid);
      (row in grid && !IsFull(row, Null)) || (row == NullRow() && |grid| - cleared < MinRows) ==>
        row in result
  {
    var (result, cleared) := ClearFullRows(grid);
    var pad := |result| - (|grid| - cleared);
    var kept := Keep(grid, Null);
    KeepMembers(grid, Null, row);
    if row in kept {
      var i :| 0 <= i < |kept| && kept[i] == row;
      assert result[pad + i] == row;
    }
    if row == NullRow() && |grid| - cleared < MinRows {
      assert result[0] == row;
    }
  }

  /** A second call changes nothing and clears nothing. */
  lemma ClearIdempotent(grid: Rows)
    ensures ClearFullRows(ClearFullRows(grid).0) == (ClearFullRows(grid).0, 0)
  {
    var once := ClearFullRows(grid).0;
    KeepIdentity(once, Null);
    assert |once| >= MinRows;
    assert NullRows(0) + once == once;
  }

  /** As written, clearing the bottom row of a twenty-row grid moves nothing down: every
      other row stays at its index and the cleared row turns into an empty one. */
  lemma AsWrittenRowsStayUp(grid: Rows)
    requires |grid| == MinRows && IsFull(grid[0], Null)
    requires forall y :: 1 <= y < |grid| ==> !IsFull(grid[y], Null)
    ensures ClearFullRows(grid).1 == 1
    ensures ClearFullRows(grid).0[0] == NullRow()
    ensures forall y :: 1 <= y < MinRows ==> ClearFullRows(grid).0[y] == grid[y]
  {
    BottomRowOnlyFull(grid);
    var result := ClearFullRows(grid).0;
    assert result == NullRows(1) + grid[1..];
    assert forall y :: 1 <= y < MinRows ==> result[y] == grid[1..][y - 1];
  }

  /** With only the bottom row full, the kept rows are all the others. */
  lemma BottomRowOnlyFull(grid: Rows)
    requires |grid| >= 1 && IsFull(grid[0], Null)
    requires forall y :: 1 <= y < |grid| ==> !IsFull(grid[y], Null)
    ensures Keep(grid, Null) == grid[1..] && FullCount(grid, Null) == 1
  {
    assert grid == [grid[0]] + grid[1..];
    KeepAppend([grid[0]], grid[1..], Null);
    KeepSingle(grid[0], Null);
    assert forall i :: 0 <= i < |grid[1..]| ==> !IsFull(grid[1..][i], Null) by {
      forall i | 0 <= i < |grid[1..]| ensures !IsFull(grid[1..][i], Null) {
        assert grid[1..][i] == grid[i + 1];
      }
    }
    KeepIdentity(grid[1..], Null);
  }

  /** The padding the routine evidently means: `null` rows added on top (`push`). */
  function PadTop(grid: Rows): (padded: Rows)
    ensures |grid| < MinRows ==> |padded| == MinRows
    ensures |grid| >= MinRows ==> padded == grid
    ensures padded[..|grid|] == grid
    ensures forall i :: |grid| <= i < |padded| ==> padded[i] == NullRow()
  {
    if |grid| < MinRows then grid + NullRows(MinRows - |grid|) else grid
  }

  /** `clear_full_rows` with the padding on top: the rows above a cleared row fall. */
  function ClearFullRowsFalling(grid: Rows): (r: (Rows, nat))
    ensures r.1 == FullCount(grid, Null)
    ensures |grid| - r.1 < MinRows ==> |r.0| == MinRows
    ensures |grid| - r.1 >= MinRows ==> |r.0| == |grid| - r.1
    ensures r.0[..|grid| - r.1] == Keep(grid, Null)
    ensures forall i :: |grid| - r.1 <= i < |r.0| ==> r.0[i] == NullRow()
    ensures forall i :: 0 <= i < |r.0| ==> !IsFull(r.0[i], Null)
  {
    var kept := Keep(grid, Null);
    var padded := PadTop(kept);
    KeptRows(grid, Null);
    assert forall i :: 0 <= i < |padded| ==> !IsFull(padded[i], Null) by {
      forall i | 0 <= i < |padded| ensures !IsFull(padded[i], Null) {
        if i < |kept| {
          assert padded[i] == padded[..|kept|][i];
        }
      }
    }
    (padded, FullCount(grid, Null))
  }

  /** Corrected: a row that is not full falls by exactly the number of full rows below
      it, and the bottom of the result holds the surviving rows, not padding. */
  lemma FallingRowsDrop(grid: Rows, y: nat)
    requires y < |grid| && !IsFull(grid[y], Null)
    ensures var result := ClearFullRowsFalling(grid).0;
      y - FullCount(grid[..y], Null) < |result|
      && result[y - FullCount(grid[..y], Null)] == grid[y]
  {
    var (result, cleared) := ClearFullRowsFalling(grid);
    KeepPosition(grid, Null, y);
    var j := y - FullCount(grid[..y], Null);
    assert result[j] == result[..|grid| - cleared][j];
  }

  /** Corrected, on the grid of `AsWrittenRowsStayUp`: every row moves down one place and
      the empty row appears on top. */
  lemma FallingBottomRowCleared(grid: Rows)
    requires |grid| == MinRows && IsFull(grid[0], Null)
    requires forall y :: 1 <= y < |grid| ==> !IsFull(grid[y], Null)
    ensures ClearFullRowsFalling(grid).1 == 1
    ensures ClearFullRowsFalling(grid).0[MinRows - 1] == NullRow()
    ensures forall y :: 1 <= y < MinRows ==> ClearFullRowsFalling(grid).0[y - 1] == grid[y]
  {
    BottomRowOnlyFull(grid);
    var result := ClearFullRowsFalling(grid).0;
    assert result[..MinRows - 1] == grid[1..];
    forall y | 1 <= y < MinRows ensures result[y - 1] == grid[y] {
      assert result[y - 1] == result[..MinRows - 1][y - 1];
    }
  }

  /** Corrected, a second call changes nothing and clears nothing. */
  lemma FallingIdempotent(grid: Rows)
    ensures ClearFullRowsFalling(ClearFullRowsFalling(grid).0) == (ClearFullRowsFalling(grid).0, 0)
  {
    var once := ClearFullRowsFalling(grid).0;
    KeepIdentity(once, Null);
    assert |once| >= MinRows;
  }
}
