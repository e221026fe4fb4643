/** Removal of full rows from the engine's board (`clearLines`).
    `Compact` is the reference result: the rows that are not full, in order, from
    the bottom up, then empty rows up to the top. `ClearLinesLoop` is the
    in-place loop of `clearLines`, proved to compute exactly that. */
module LineClear {
  import opened RowFilter
  import opened Board

  /** A playfield row of ten empty cells. */
  const EmptyRow: seq<int> := seq(Width, _ => Empty)

  predicate Shaped(rows: seq<seq<int>>) {
    |rows| == Height && forall y :: 0 <= y < |rows| ==> |rows[y]| == Width
  }

  /** The rows that are not full, bottom first, topped up with empty rows to 24. */
  function Settle(rows: seq<seq<int>>): (settled: seq<seq<int>>)
    requires Shaped(rows)
    ensures Shaped(settled)
  {
    var kept := Keep(rows, Empty);
    KeptRows(rows, Empty);
    assert forall i :: 0 <= i < |kept| ==> |kept[i]| == Width by {
      forall i | 0 <= i < |kept| ensures |kept[i]| == Width {
        assert kept[i] in rows;
      }
    }
    kept + seq(Height - |kept|, _ => EmptyRow)
  }

  /** The grid whose playfield rows are `rows`, with columns 0, 1, 12, 13 taken from `g`. */
  function WithRows(g: Grid, rows: seq<seq<int>>): (r: Grid)
    requires WellFormed(g) && Shaped(rows)
    ensures WellFormed(r)
    ensures Rows(r) == rows
    ensures forall c :: 0 <= c < Columns && !(Left <= c < Right) ==> r[c] == g[c]
  {
    var r := seq(Columns, c requires 0 <= c < Columns =>
      if Left <= c < Right then seq(Height, y requires 0 <= y < Height => rows[y][c - Left])
      else g[c]);
    assert forall y :: 0 <= y < Height ==> Row(r, y) == rows[y] by {
      forall y | 0 <= y < Height ensures Row(r, y) == rows[y] {
        assert forall i :: 0 <= i < Width ==> Row(r, y)[i] == rows[y][i];
      }
    }
    r
  }

  /** The board after `clearLines`: full rows gone, the rest moved down, empty rows on top. */
  function Compact(g: Grid): (r: Grid)
    requires WellFormed(g)
    ensures WellFormed(r)
    ensures forall c :: 0 <= c < Columns && !(Left <= c < Right) ==> r[c] == g[c]
  {
    WithRows(g, Settle(Rows(g)))
  }

  /** Writing back the rows a grid already has changes nothing. */
  lemma WithOwnRows(g: Grid)
    requires WellFormed(g)
    ensures WithRows(g, Rows(g)) == g
  {
    var r := WithRows(g, Rows(g));
    forall c | 0 <= c < Columns
      ensures r[c] == g[c]
    {
      if Left <= c < Right {
        forall y | 0 <= y < Height
          ensures r[c][y] == g[c][y]
        {
          assert Rows(r)[y][c - Left] == Row(g, y)[c - Left];
        }
      }
    }
  }

  /** A board with no full row is left unchanged by `clearLines` (clear([]) is the identity). */
  lemma CompactIdentity(g: Grid)
    requires WellFormed(g) && FullCount(Rows(g), Empty) == 0
    ensures Compact(g) == g
  {
    KeepIdentity(Rows(g), Empty);
    assert Settle(Rows(g)) == Rows(g);
    WithOwnRows(g);
  }

  /** After `clearLines` no row 0..23 is full. */
  lemma CompactNoFullRows(g: Grid)
    requires WellFormed(g)
    ensures forall y :: 0 <= y < Height ==> !FullRow(Compact(g), y)
    ensures FullCount(Rows(Compact(g)), Empty) == 0
  {
    var kept := Keep(Rows(g), Empty);
    var settled := Settle(Rows(g));
    KeptRows(Rows(g), Empty);
    forall y | 0 <= y < Height
      ensures !IsFull(settled[y], Empty)
    {
      if y >= |kept| {
        assert settled[y] == EmptyRow && EmptyRow[0] == Empty;
      }
    }
    assert forall y :: 0 <= y < Height ==> Row(Compact(g), y) == settled[y];
    KeepIdentity(settled, Empty);
  }

  /** A row that is not full survives `clearLines`, moved down by exactly the number of
      full rows below it; so rows that are not full keep their relative order. */
  lemma CompactKeepsOrder(g: Grid, y: nat)
    requires WellFormed(g) && y < Height && !FullRow(g, y)
    ensures FullCount(Rows(g)[..y], Empty) <= y
    ensures Row(Compact(g), y - FullCount(Rows(g)[..y], Empty)) == Row(g, y)
  {
    KeepPosition(Rows(g), Empty, y);
    assert Rows(g)[y] == Row(g, y);
    var d := FullCount(Rows(g)[..y], Empty);
    assert Rows(Compact(g))[y - d] == Settle(Rows(g))[y - d];
  }

  /** The top rows vacated by `clearLines`, one per full row, are empty in every playfield column. */
  lemma CompactTopEmpty(g: Grid)
    requires WellFormed(g)
    ensures forall y, c :: Height - FullCount(Rows(g), Empty) <= y < Height && Left <= c < Right ==>
      Compact(g)[c][y] == Empty
  {
    var settled := Settle(Rows(g));
    forall y, c | Height - FullCount(Rows(g), Empty) <= y < Height && Left <= c < Right
      ensures Compact(g)[c][y] == Empty
    {
      assert settled[y] == EmptyRow;
      assert Rows(Compact(g))[y][c - Left] == Compact(g)[c][y];
    }
  }

  // ---------------------------------------------------------------------------
  // The loop of `clearLines`

  /** One removal step of the loop at row y: in each playfield column, row y is
      cleared, rows y+1..23 move down by one and row 23 becomes -1. */
  function RemoveRow(g: Grid, y: nat): (r: Grid)
    requires WellFormed(g) && y < Height
    ensures WellFormed(r)
  {
    seq(Columns, c requires 0 <= c < Columns =>
      if Left <= c < Right then g[c][..y] + g[c][y + 1..] + [Empty] else g[c])
  }

  /** In the row view, one removal step deletes row y and appends an empty row on top. */
  lemma RowsAfterRemove(g: Grid, y: nat)
    requires WellFormed(g) && y < Height
    ensures Rows(RemoveRow(g, y)) == Rows(g)[..y] + Rows(g)[y + 1..] + [EmptyRow]
  {
    var g' := RemoveRow(g, y);
    var expected := Rows(g)[..y] + Rows(g)[y + 1..] + [EmptyRow];
    forall r | 0 <= r < Height
      ensures Rows(g')[r] == expected[r]
    {
      forall i | 0 <= i < Width
        ensures Row(g', r)[i] == expected[r][i]
      {
        var c := Left + i;
        assert g'[c] == g[c][..y] + g[c][y + 1..] + [Empty];
        if r < y {
          assert expected[r] == Row(g, r);
        } else if r < Height - 1 {
          assert expected[r] == Row(g, r + 1);
        } else {
          assert expected[r] == EmptyRow;
        }
      }
    }
  }

  /** One more empty row among the kept rows is one fewer padding row: same settled rows. */
  lemma SettleExtra(rows: seq<seq<int>>, rows': seq<seq<int>>)
    requires Shaped(rows) && Shaped(rows')
    requires Keep(rows', Empty) == Keep(rows, Empty) + [EmptyRow]
    ensures Settle(rows') == Settle(rows)
  {
    var kept := Keep(rows, Empty);
    var a := Settle(rows');
    var b := Settle(rows);
    assert |a| == |b|;
    forall i | 0 <= i < |a|
      ensures a[i] == b[i]
    {
      if i < |kept| {
        assert a[i] == kept[i];
      } else {
        assert a[i] == EmptyRow;
      }
    }
  }

  /** `WithRows` reads only the outer columns of its grid argument. */
  lemma WithRowsOuter(g1: Grid, g2: Grid, rows: seq<seq<int>>)
    requires WellFormed(g1) && WellFormed(g2) && Shaped(rows)
    requires forall c :: 0 <= c < Columns && !(Left <= c < Right) ==> g1[c] == g2[c]
    ensures WithRows(g1, rows) == WithRows(g2, rows)
  {
  }

  /** Removing a full row does not change the final result and leaves one full row fewer. */
  lemma RemoveFullRow(g: Grid, y: nat)
    requires WellFormed(g) && y < Height && FullRow(g, y)
    ensures Compact(RemoveRow(g, y)) == Compact(g)
    ensures FullCount(Rows(RemoveRow(g, y)), Empty) + 1 == FullCount(Rows(g), Empty)
    ensures forall r :: 0 <= r < y ==> Row(RemoveRow(g, y), r) == Row(g, r)
    ensures forall r :: 0 <= r < y ==> (FullRow(RemoveRow(g, y), r) <==> FullRow(g, r))
  {
    var rows := Rows(g);
    var g' := RemoveRow(g, y);
    RowsAfterRemove(g, y);
    assert rows[y] == Row(g, y);
    assert rows == rows[..y] + [rows[y]] + rows[y + 1..];
    assert EmptyRow[0] == Empty;
    ReplaceFull(rows[..y], rows[y], rows[y + 1..], EmptyRow, Empty);
    SettleExtra(rows, Rows(g'));
    WithRowsOuter(g', g, Settle(rows));
    forall r | 0 <= r < y
      ensures Row(g', r) == Row(g, r)
    {
      assert Rows(g')[r] == rows[r];
    }
  }

  /** A board with no full row is its own compaction. */
  lemma NoFullRowsFixed(g: Grid)
    requires WellFormed(g)
    requires forall r :: 0 <= r < Height ==> !FullRow(g, r)
    ensures Compact(g) == g
    ensures FullCount(Rows(g), Empty) == 0
  {
    forall r | 0 <= r < Height
      ensures !IsFull(Rows(g)[r], Empty)
    {
      assert !FullRow(g, r);
      assert Rows(g)[r] == Row(g, r);
    }
    KeepIdentity(Rows(g), Empty);
    CompactIdentity(g);
  }

  /** `clearLines`' row loop: scan rows bottom-up; on a full row shift everything
      above it down one row and look at the same row again (`clearLines`' `y--`),
      otherwise go to the next row. Returns the new grid and the number removed. */
  method ClearLinesLoop(g0: Grid) returns (g: Grid, cleared: nat)
    requires WellFormed(g0)
    ensures g == Compact(g0)
    ensures cleared == FullCount(Rows(g0), Empty)
    ensures forall y :: 0 <= y < Height ==> !FullRow(g, y)
  {
    g := g0;
    cleared := 0;
    var y := 0;
    while y < Height
      invariant 0 <= y <= Height
      invariant WellFormed(g)
      invariant forall r :: 0 <= r < y ==> !FullRow(g, r)
      invariant Compact(g) == Compact(g0)
      invariant cleared + FullCount(Rows(g), Empty) == FullCount(Rows(g0), Empty)
      decreases FullCount(Rows(g), Empty), Height - y
    {
      if FullRow(g, y) {
        RemoveFullRow(g, y);
        g := RemoveRow(g, y);
        cleared := cleared + 1;
      } else {
        y := y + 1;
      }
    }
    NoFullRowsFixed(g);
  }
}
