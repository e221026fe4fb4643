/** The engine's board: a 14 x 24 grid indexed `grid[x][y]`, y = 0 at the bottom,
    -1 for an empty cell and a piece index 0..6 for a settled block. Only
    columns 2..11 are playfield; columns 0, 1, 12, 13 start empty like every
    other cell and are kept out of play by the bounds test in `CheckCollision`. */
module Board {
  import opened RowFilter
  import opened Pieces

  const Columns := 14
  const Height := 24
  /** First playfield column. */
  const Left := 2
  /** One past the last playfield column. */
  const Right := 12
  /** Playfield width, 10. */
  const Width := Right - Left
  /** A piece cell must lie below this row. */
  const Ceiling := 22
  const Empty := -1

  type Grid = seq<seq<int>>

  /** A cell as (x, y). */
  type Pos = (int, int)

  predicate WellFormed(g: Grid) {
    |g| == Columns && forall c :: 0 <= c < |g| ==> |g[c]| == Height
  }

  predicate InGrid(p: Pos) {
    0 <= p.0 < Columns && 0 <= p.1 < Height
  }

  /** `initializeGrid`: every cell is filled with -1, then a second pass writes -1
      once more into the cells with x < 2, x > 11 or y < 2. */
  function InitialGrid(): (g: Grid)
    ensures WellFormed(g)
    ensures forall c, y :: 0 <= c < Columns && 0 <= y < Height ==> g[c][y] == Empty
  {
    var filled := seq(Columns, c => seq(Height, y => Empty));
    seq(Columns, c requires 0 <= c < Columns =>
      seq(Height, y requires 0 <= y < Height =>
        if c < Left || c > Right - 1 || y < 2 then Empty else filled[c][y]))
  }

  // ---------------------------------------------------------------------------
  // Row view of the playfield

  /** Row y of the playfield, columns 2..11 from left to right. */
  function Row(g: Grid, y: int): (row: seq<int>)
    requires WellFormed(g) && 0 <= y < Height
    ensures |row| == Width
  {
    seq(Width, i requires 0 <= i < Width => g[Left + i][y])
  }

  /** All playfield rows, bottom first. */
  function Rows(g: Grid): (rows: seq<seq<int>>)
    requires WellFormed(g)
    ensures |rows| == Height
    ensures forall y :: 0 <= y < Height ==> |rows[y]| == Width
  {
    seq(Height, y requires 0 <= y < Height => Row(g, y))
  }

  /** Row y is full: every playfield cell of it differs from -1. */
  predicate FullRow(g: Grid, y: int)
    requires WellFormed(g) && 0 <= y < Height
  {
    IsFull(Row(g, y), Empty)
  }

  lemma FullRowCells(g: Grid, y: int)
    requires WellFormed(g) && 0 <= y < Height
    ensures FullRow(g, y) <==> forall c :: Left <= c < Right ==> g[c][y] != Empty
  {
    if forall c :: Left <= c < Right ==> g[c][y] != Empty {
      forall i | 0 <= i < Width
        ensures Row(g, y)[i] != Empty
      {
        assert Row(g, y)[i] == g[Left + i][y];
      }
    } else {
      var c :| Left <= c < Right && g[c][y] == Empty;
      assert Row(g, y)[c - Left] == Empty;
    }
  }

  // ---------------------------------------------------------------------------
  // Collision test

  /** The four absolute cells of piece `block` in state `rotation` anchored at (x, y). */
  function Cells(block: nat, rotation: nat, x: int, y: int): (cells: seq<Pos>)
    requires block < Kinds && rotation < Rotations
    ensures |cells| == 4
  {
    var shape := Shape(block, rotation);
    seq(4, i requires 0 <= i < 4 => (x + shape[i].dx, y + shape[i].dy))
  }

  /** A cell a piece may occupy: inside columns 2..11, rows 0..21, and empty. */
  predicate Free(g: Grid, p: Pos)
    requires WellFormed(g)
  {
    Left <= p.0 < Right && 0 <= p.1 < Ceiling && g[p.0][p.1] == Empty
  }

  /** `checkCollision(x, y, rotation)`: true when the placement is LEGAL, that is when
      `every` cell of the piece is free. */
  function CheckCollision(g: Grid, block: nat, x: int, y: int, rotation: nat): (legal: bool)
    requires WellFormed(g) && block < Kinds && rotation < Rotations
    ensures legal <==> forall i :: 0 <= i < 4 ==>
      var p := (x + Shape(block, rotation)[i].dx, y + Shape(block, rotation)[i].dy);
      Left <= p.0 < Right && 0 <= p.1 < Ceiling && g[p.0][p.1] == Empty
  {
    var cells := Cells(block, rotation, x, y);
    assert forall i :: 0 <= i < 4 ==>
      cells[i] == (x + Shape(block, rotation)[i].dx, y + Shape(block, rotation)[i].dy);
    forall i :: 0 <= i < 4 ==> Free(g, cells[i])
  }

  /** The test depends on the rotation only through the shape it selects. */
  lemma SameShapeSameCollision(g: Grid, block: nat, x: int, y: int, r1: nat, r2: nat)
    requires WellFormed(g) && block < Kinds && r1 < Rotations && r2 < Rotations
    requires Shape(block, r1) == Shape(block, r2)
    ensures CheckCollision(g, block, x, y, r1) == CheckCollision(g, block, x, y, r2)
  {
    assert Cells(block, r1, x, y) == Cells(block, r2, x, y);
  }

  /** A legal placement lies inside the grid. */
  lemma LegalInGrid(g: Grid, block: nat, x: int, y: int, rotation: nat)
    requires WellFormed(g) && block < Kinds && rotation < Rotations
    requires CheckCollision(g, block, x, y, rotation)
    ensures forall i :: 0 <= i < 4 ==> InGrid(Cells(block, rotation, x, y)[i])
  {
  }

  /** On an empty board every piece fits at the spawn anchor (6, 19) in state 0. */
  lemma SpawnFitsEmptyBoard(g: Grid, block: nat)
    requires WellFormed(g) && block < Kinds
    requires forall c, y :: 0 <= c < Columns && 0 <= y < Height ==> g[c][y] == Empty
    ensures CheckCollision(g, block, 6, 19, 0)
  {
  }

  /** The spawn anchor keeps every piece inside the grid. */
  lemma SpawnInGrid(block: nat)
    requires block < Kinds
    ensures forall i :: 0 <= i < 4 ==> InGrid(Cells(block, 0, 6, 19)[i])
  {
  }

  // ---------------------------------------------------------------------------
  // Placing a piece

  /** `grid[x][y] = v` */
  function SetCell(g: Grid, p: Pos, v: int): (r: Grid)
    requires WellFormed(g) && InGrid(p)
    ensures WellFormed(r)
  {
    g[p.0 := g[p.0][p.1 := v]]
  }

  /** Writes `v` into each of `cells`, in order (the `forEach` of `placeBlock`). */
  function Stamp(g: Grid, cells: seq<Pos>, v: int): (r: Grid)
    requires WellFormed(g)
    requires forall i :: 0 <= i < |cells| ==> InGrid(cells[i])
    ensures WellFormed(r)
    ensures forall c, y :: 0 <= c < Columns && 0 <= y < Height ==>
      r[c][y] == if (c, y) in cells then v else g[c][y]
    decreases |cells|
  {
    if |cells| == 0 then g
    else
      var r := Stamp(SetCell(g, cells[0], v), cells[1..], v);
      assert forall p :: p in cells <==> p == cells[0] || p in cells[1..] by {
        assert cells == [cells[0]] + cells[1..];
      }
      r
  }

  // ---------------------------------------------------------------------------
  // Full-row detection (`checkLines`)

  /** The full rows from `y` upwards, in ascending order. */
  function FullLinesFrom(g: Grid, y: nat): (lines: seq<nat>)
    requires WellFormed(g) && y <= Height
    ensures forall i :: 0 <= i < |lines| ==> y <= lines[i] < Height && FullRow(g, lines[i])
    ensures forall r :: y <= r < Height && FullRow(g, r) ==> r in lines
    ensures forall i, j :: 0 <= i < j < |lines| ==> lines[i] < lines[j]
    ensures |lines| == FullCount(Rows(g)[y..], Empty)
    decreases Height - y
  {
    if y == Height then []
    else
      var rest := FullLinesFrom(g, y + 1);
      assert Rows(g)[y..][1..] == Rows(g)[y + 1..];
      if FullRow(g, y) then [y] + rest else rest
  }

  /** The ascending list of full rows among 0..23 that `checkLines` stores in `fullLines`. */
  function FullLines(g: Grid): (lines: seq<nat>)
    requires WellFormed(g)
    ensures forall r :: r in lines <==> 0 <= r < Height && FullRow(g, r)
    ensures forall i, j :: 0 <= i < j < |lines| ==> lines[i] < lines[j]
    ensures |lines| == FullCount(Rows(g), Empty)
  {
    assert Rows(g)[0..] == Rows(g);
    FullLinesFrom(g, 0)
  }

  /** Some row is full exactly when the list of full rows is non-empty. */
  lemma AnyFullLine(g: Grid)
    requires WellFormed(g)
    ensures (exists y :: 0 <= y < Height && FullRow(g, y)) <==> |FullLines(g)| > 0
  {
    var lines := FullLines(g);
    if exists y :: 0 <= y < Height && FullRow(g, y) {
      var y :| 0 <= y < Height && FullRow(g, y);
      assert y in lines;
    }
    if |lines| > 0 {
      assert lines[0] in lines;
    }
  }

  /** A strictly increasing list whose entries all occur in `t` is no longer than `t`. */
  lemma {:induction false} IncreasingWithin(s: seq<int>, t: seq<int>)
    requires forall i, j :: 0 <= i < j < |s| ==> s[i] < s[j]
    requires forall i :: 0 <= i < |s| ==> s[i] in t
    ensures |s| <= |t|
    decreases |s|
  {
    if |s| > 0 {
      var k :| 0 <= k < |t| && t[k] == s[0];
      var t' := t[..k] + t[k + 1..];
      forall i | 0 <= i < |s[1..]|
        ensures s[1..][i] in t'
      {
        assert s[1..][i] == s[i + 1] && s[0] < s[i + 1];
        var m :| 0 <= m < |t| && t[m] == s[i + 1];
        if m < k {
          assert t'[m] == t[m];
        } else {
          assert m != k;
          assert t'[m - 1] == t[m];
        }
      }
      IncreasingWithin(s[1..], t');
    }
  }

  /** Placing a piece on a board with no full row leaves at most four full rows,
      all of them rows the piece touches. */
  lemma StampFullRows(g: Grid, cells: seq<Pos>, v: int)
    requires WellFormed(g) && |cells| == 4
    requires forall i :: 0 <= i < 4 ==> InGrid(cells[i])
    requires FullCount(Rows(g), Empty) == 0
    ensures forall r :: 0 <= r < Height && FullRow(Stamp(g, cells, v), r) ==>
      exists i :: 0 <= i < 4 && cells[i].1 == r
    ensures FullCount(Rows(Stamp(g, cells, v)), Empty) <= 4
  {
    var g' := Stamp(g, cells, v);
    KeepIdentity(Rows(g), Empty);
    var ys := seq(4, i requires 0 <= i < 4 => cells[i].1);
    forall r | 0 <= r < Height && FullRow(g', r)
      ensures exists i :: 0 <= i < 4 && cells[i].1 == r
    {
      if forall i :: 0 <= i < 4 ==> cells[i].1 != r {
        assert Rows(g)[r] == Row(g, r);
        FullRowCells(g, r);
        FullRowCells(g', r);
        assert false;
      }
    }
    var lines := FullLines(g');
    forall i | 0 <= i < |lines|
      ensures lines[i] in ys
    {
      var j :| 0 <= j < 4 && cells[j].1 == lines[i];
      assert ys[j] == lines[i];
    }
    IncreasingWithin(lines, ys);
  }
}
