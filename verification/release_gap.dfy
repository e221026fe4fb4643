/** The end of the line-clear animation in main.js clears the rows but never calls
    `checkEnd`, and neither does `tick` when it starts the animation: the piece that
    spawned while the animation ran can end up overlapping the stack with the game still
    on, and the next lock writes over a stack cell. */
module ReleaseGap {
  import opened Pieces
  import opened RowFilter
  import opened Board
  import opened LineClear
  import opened Bag
  import opened Scoring
  import opened Engine

  /** Rows 0 and 1 full across the playfield and one stack cell at (6, 21), all holding
      piece `v`. */
  function WitnessGrid(v: nat): (g: Grid)
    ensures WellFormed(g)
    ensures forall c :: Left <= c < Right ==> g[c][0] == v && g[c][1] == v
    ensures g[6][21] == v
    ensures forall y :: 2 <= y < Height ==> g[Left][y] == Empty
    ensures forall c, y :: 6 <= c <= 7 && 19 <= y <= 20 ==> g[c][y] == Empty
  {
    seq(Columns, c requires 0 <= c < Columns =>
      seq(Height, y requires 0 <= y < Height =>
        if (y <= 1 && Left <= c < Right) || (c == 6 && y == 21) then v else Empty))
  }

  /** Just after a lock that filled rows 0 and 1: the square has spawned at (6, 19), on
      free cells, and the animation runs. */
  function Witness(v: nat): (s: State)
    ensures Proper(s)
  {
    var g := WitnessGrid(v);
    State(g, SpawnX, SpawnY, OPiece, 0, [], Start, false, true, FullLines(g), RowFlags(g))
  }

  /** Only rows 0 and 1 are full, so two full rows lie below row 21. */
  lemma WitnessRows(v: nat)
    ensures FullCount(Rows(WitnessGrid(v)), Empty) == 2
    ensures FullCount(Rows(WitnessGrid(v))[..21], Empty) == 2
    ensures !FullRow(WitnessGrid(v), 21)
  {
    var rows := Rows(WitnessGrid(v));
    WitnessRowFull(v, 0);
    WitnessRowFull(v, 1);
    forall y | 2 <= y < Height ensures !IsFull(rows[y], Empty) {
      WitnessRowNotFull(v, y);
    }
    UpperRowsNotFull(rows, 21);
    UpperRowsNotFull(rows, Height);
    assert rows[..Height] == rows;
    WitnessRowNotFull(v, 21);
  }

  lemma WitnessRowFull(v: nat, y: nat)
    requires y <= 1
    ensures IsFull(Rows(WitnessGrid(v))[y], Empty)
  {
    var g := WitnessGrid(v);
    FullRowCells(g, y);
  }

  lemma WitnessRowNotFull(v: nat, y: nat)
    requires 2 <= y < Height
    ensures !IsFull(Rows(WitnessGrid(v))[y], Empty) && !FullRow(WitnessGrid(v), y)
  {
    var g := WitnessGrid(v);
    FullRowCells(g, y);
    assert g[Left][y] == Empty;
  }

  /** With only the two bottom rows full, every prefix of length `n` holds two full rows. */
  lemma UpperRowsNotFull(rows: seq<seq<int>>, n: nat)
    requires 2 <= n <= |rows| && IsFull(rows[0], Empty) && IsFull(rows[1], Empty)
    requires forall y :: 2 <= y < |rows| ==> !IsFull(rows[y], Empty)
    ensures FullCount(rows[..n], Empty) == 2
  {
    var upper := rows[2..n];
    assert rows[..n] == [rows[0]] + ([rows[1]] + upper);
    KeepAppend([rows[0]], [rows[1]] + upper, Empty);
    KeepAppend([rows[1]], upper, Empty);
    KeepSingle(rows[0], Empty);
    KeepSingle(rows[1], Empty);
    assert forall i :: 0 <= i < |upper| ==> !IsFull(upper[i], Empty) by {
      forall i | 0 <= i < |upper| ensures !IsFull(upper[i], Empty) {
        assert upper[i] == rows[i + 2];
      }
    }
    KeepIdentity(upper, Empty);
  }

  lemma WitnessSound(v: nat)
    ensures Sound(Witness(v))
  {
    WitnessRows(v);
    SpawnInGrid(OPiece);
  }

  /** After the clear the stack cell from (6, 21) sits two rows lower, at (6, 19). */
  lemma WitnessCompacted(v: nat)
    ensures Compact(WitnessGrid(v))[6][19] == v
  {
    var g := WitnessGrid(v);
    WitnessRows(v);
    CompactKeepsOrder(g, 21);
    assert Row(Compact(g), 19) == Row(g, 21);
    assert Compact(g)[6][19] == Row(Compact(g), 19)[4];
  }

  /** Before the clear the square's four cells, columns 6 and 7 of rows 19 and 20, are
      free. */
  lemma WitnessSpawnFits(v: nat)
    ensures Legal(Witness(v), SpawnX, SpawnY, 0)
  {
    var g := WitnessGrid(v);
    assert g[6][19] == Empty && g[6][20] == Empty && g[7][19] == Empty && g[7][20] == Empty;
    SquareFits(g);
  }

  /** The square fits at the spawn point exactly when its four cells are empty. */
  lemma SquareFits(g: Grid)
    requires WellFormed(g)
    ensures CheckCollision(g, OPiece, SpawnX, SpawnY, 0) <==>
      g[6][19] == Empty && g[6][20] == Empty && g[7][19] == Empty && g[7][20] == Empty
  {
    var shape := Shape(OPiece, 0);
    assert shape[0] == Offset(1, 0) && shape[1] == Offset(1, 1);
    assert shape[2] == Offset(0, 0) && shape[3] == Offset(0, 1);
  }

  /** The square at the spawn point covers (6, 19). */
  lemma SquareSpawnCovers(s: State)
    requires Proper(s) && s.block == OPiece && (s.x, s.y, s.rotation) == (SpawnX, SpawnY, 0)
    ensures Cells(s.block, s.rotation, s.x, s.y)[2] == (6, 19)
    ensures s.grid[6][19] != Empty ==> !Legal(s, s.x, s.y, s.rotation)
  {
    assert Shape(OPiece, 0)[2] == Offset(0, 0);
  }

  /** As written, the animation ends with the square, which fitted where it spawned, on
      the stack cell that moved down to (6, 19), and `gameEnd` still false: the invariant
      `Sound` is broken. */
  lemma AsWrittenReleaseOverlaps(v: nat)
    ensures Sound(Witness(v))
    ensures Legal(Witness(v), SpawnX, SpawnY, 0)
    ensures var r := AnimationDoneAsWritten(Witness(v));
      && Placed(r) && InRange(r.queue)
      && r.block == OPiece && (r.x, r.y, r.rotation) == (SpawnX, SpawnY, 0)
      && !r.gameEnd && !r.isAnimating
      && r.grid[6][19] == v
      && !Legal(r, r.x, r.y, r.rotation)
      && !Sound(r)
  {
    WitnessSound(v);
    WitnessSpawnFits(v);
    var r := AnimationDoneAsWritten(Witness(v));
    assert r.grid == Compact(WitnessGrid(v));
    WitnessCompacted(v);
    SquareSpawnCovers(r);
  }

  /** What follows for the state `AsWrittenReleaseOverlaps` exhibits: a square at the spawn
      point on a taken (6, 19) locks at the next tick, over that cell, whatever piece is
      drawn next. */
  lemma SquareLocksOver(s: State, rolls: seq<nat>)
    requires Proper(s) && Placed(s) && InRange(s.queue) && ValidRolls(rolls, Kinds)
    requires s.block == OPiece && (s.x, s.y, s.rotation) == (SpawnX, SpawnY, 0)
    requires !s.gameEnd && !s.isAnimating && s.grid[6][19] != Empty
    ensures Tick(s, rolls).0.grid[6][19] == OPiece
  {
    SquareBlockedBelow(s);
    SquareSpawnCovers(s);
    TickLockGrid(s, rolls);
    assert (6, 19) in Cells(s.block, s.rotation, s.x, s.y);
  }

  /** Below the spawn point the square would cover (6, 19) too, which is taken. */
  lemma SquareBlockedBelow(s: State)
    requires Proper(s) && s.block == OPiece && (s.x, s.y, s.rotation) == (SpawnX, SpawnY, 0)
    requires s.grid[6][19] != Empty
    ensures !Legal(s, s.x, s.y - 1, s.rotation)
  {
    assert Shape(OPiece, 0)[3] == Offset(0, 1);
  }

  /** A locking tick leaves the placed grid, whether or not it starts the animation. */
  lemma TickLockGrid(s: State, rolls: seq<nat>)
    requires Proper(s) && Placed(s) && InRange(s.queue) && ValidRolls(rolls, Kinds)
    requires !s.gameEnd && !s.isAnimating && !Legal(s, s.x, s.y - 1, s.rotation)
    ensures Tick(s, rolls).0.grid == PlaceBlock(s, rolls).grid
  {
    var p := PlaceBlock(s, rolls);
    TickLocks(s, rolls);
    if !CheckLines(p).1 {
      assert FullCount(Rows(CheckLines(p).0.grid), Empty) == 0;
    }
  }

  /** With `checkEnd` after the clear, the same state ends the game instead. */
  lemma CorrectedReleaseEndsGame(v: nat)
    ensures AnimationDone(Witness(v)).gameEnd
  {
    AsWrittenReleaseOverlaps(v);
  }
}
