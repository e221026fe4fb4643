/** The game-state engine (the `tetris` class): one immutable state record and a pure
    function per method. Every random index the engine draws arrives as a "roll"
    parameter (see module Bag). */
module Engine {
  import opened Pieces
  import opened RowFilter
  import opened Board
  import opened LineClear
  import opened Bag
  import opened Scoring

  /** The fields of a `tetris` object. `animate[y]` mirrors the last `checkLines` result. */
  datatype State = State(
    grid: Grid,
    x: int,
    y: int,
    block: nat,
    rotation: nat,
    queue: seq<nat>,
    tally: Tally,
    gameEnd: bool,
    isAnimating: bool,
    fullLines: seq<nat>,
    animate: seq<bool>)

  /** What `tick` returns: nothing (`undefined`) once the game has ended, else a flag. */
  datatype Outcome = Undefined | Returned(value: bool)

  /** Where each new piece appears. */
  const SpawnX := 6
  const SpawnY := 19

  /** The shape every state has: a 14 x 24 grid, a known piece and rotation. */
  predicate Proper(s: State) {
    WellFormed(s.grid) && s.block < Kinds && s.rotation < Rotations && |s.animate| == Height
  }

  /** `checkCollision(x, y, rotation)` for the current piece on the current grid. */
  predicate Legal(s: State, x: int, y: int, rotation: nat)
    requires Proper(s) && rotation < Rotations
  {
    CheckCollision(s.grid, s.block, x, y, rotation)
  }

  /** Every queued entry names a piece. */
  predicate InRange(queue: seq<nat>) {
    forall i :: 0 <= i < |queue| ==> queue[i] < Kinds
  }

  /** The current piece lies inside the 14 x 24 array (not necessarily on free cells). */
  predicate Placed(s: State)
    requires Proper(s)
  {
    forall i :: 0 <= i < 4 ==> InGrid(Cells(s.block, s.rotation, s.x, s.y)[i])
  }

  // ---------------------------------------------------------------------------
  // Construction

  /** The constructor: empty grid, zero counters, piece `first` at the spawn point, and the
      other six pieces shuffled into the queue. */
  function Init(first: nat, rolls: seq<nat>): (s: State)
    requires first < Kinds && ValidRolls(rolls, Kinds - 1)
    ensures Proper(s) && Placed(s)
    ensures forall c, y :: 0 <= c < Columns && 0 <= y < Height ==> s.grid[c][y] == Empty
    ensures multiset([s.block] + s.queue) == multiset(AllKinds())
    ensures s.tally == Tally(Points(0), 0, 0) && !s.gameEnd && !s.isAnimating
    ensures (s.x, s.y, s.rotation) == (SpawnX, SpawnY, 0)
    ensures s.block == first && s.queue == InitialQueue(first, rolls)
  {
    SpawnInGrid(first);
    State(InitialGrid(), SpawnX, SpawnY, first, 0, InitialQueue(first, rolls),
          Start, false, false, [], seq(Height, _ => false))
  }

  // ---------------------------------------------------------------------------
  // Moves

  /** `moveLeft`. */
  function MoveLeft(s: State): (r: State)
    requires Proper(s)
    ensures r == s || r == s.(x := s.x - 1)
    ensures r != s <==> !s.gameEnd && Legal(s, s.x - 1, s.y, s.rotation)
  {
    if !s.gameEnd && Legal(s, s.x - 1, s.y, s.rotation) then s.(x := s.x - 1) else s
  }

  /** `moveRight`. */
  function MoveRight(s: State): (r: State)
    requires Proper(s)
    ensures r == s || r == s.(x := s.x + 1)
    ensures r != s <==> !s.gameEnd && Legal(s, s.x + 1, s.y, s.rotation)
  {
    if !s.gameEnd && Legal(s, s.x + 1, s.y, s.rotation) then s.(x := s.x + 1) else s
  }

  /** `moveDown`. */
  function MoveDown(s: State): (r: State)
    requires Proper(s)
    ensures r == s || r == s.(y := s.y - 1)
    ensures r != s <==> !s.gameEnd && Legal(s, s.x, s.y - 1, s.rotation)
  {
    if !s.gameEnd && Legal(s, s.x, s.y - 1, s.rotation) then s.(y := s.y - 1) else s
  }

  /** `getBottom`: the piece rests on something, so a move down would be refused. */
  function GetBottom(s: State): (grounded: bool)
    requires Proper(s)
    ensures !s.gameEnd ==> (grounded <==> MoveDown(s) == s)
  {
    !Legal(s, s.x, s.y - 1, s.rotation)
  }

  /** A move to the left that went through is undone by a move to the right, and back. */
  lemma LeftRightInverse(s: State)
    requires Proper(s) && Legal(s, s.x, s.y, s.rotation)
    ensures MoveLeft(s) != s ==> MoveRight(MoveLeft(s)) == s
    ensures MoveRight(s) != s ==> MoveLeft(MoveRight(s)) == s
  {
    if MoveLeft(s) != s {
      LeftThenRight(s);
    }
    if MoveRight(s) != s {
      RightThenLeft(s);
    }
  }

  lemma LeftThenRight(s: State)
    requires Proper(s) && Legal(s, s.x, s.y, s.rotation) && MoveLeft(s) != s
    ensures MoveRight(MoveLeft(s)) == s
  {
    var l := MoveLeft(s);
    assert l == s.(x := s.x - 1);
    assert Legal(l, l.x + 1, l.y, l.rotation) by {
      assert l.grid == s.grid && l.block == s.block && l.y == s.y && l.rotation == s.rotation;
    }
    assert MoveRight(l) == l.(x := l.x + 1);
  }

  lemma RightThenLeft(s: State)
    requires Proper(s) && Legal(s, s.x, s.y, s.rotation) && MoveRight(s) != s
    ensures MoveLeft(MoveRight(s)) == s
  {
    var r := MoveRight(s);
    assert r == s.(x := s.x + 1);
    assert Legal(r, r.x - 1, r.y, r.rotation) by {
      assert r.grid == s.grid && r.block == s.block && r.y == s.y && r.rotation == s.rotation;
    }
    assert MoveLeft(r) == r.(x := r.x - 1);
  }

  // ---------------------------------------------------------------------------
  // Rotation

  /** The rotation state a quarter turn leads to: `(rotation + 1) % 4`. It always
      differs from the one it starts from. */
  function Turned(rotation: nat): (t: nat)
    requires rotation < Rotations
    ensures t < Rotations && t != rotation
    ensures t == 0 <==> rotation == Rotations - 1
    ensures rotation + 1 < Rotations ==> t == rotation + 1
  {
    (rotation + 1) % Rotations
  }

  /** The piece may shift by `kick` and take rotation state `rotation`. */
  predicate KickLegal(s: State, kick: Offset, rotation: nat)
    requires Proper(s) && rotation < Rotations
  {
    Legal(s, s.x + kick.dx, s.y + kick.dy, rotation)
  }

  /** The loop over the wall-kick candidates from index `i` on: the index of the first
      legal one, or `|kicks|` when none is. */
  function FirstKick(s: State, kicks: seq<Offset>, rotation: nat, i: nat): (k: nat)
    requires Proper(s) && rotation < Rotations && i <= |kicks|
    ensures i <= k <= |kicks|
    ensures k < |kicks| ==> KickLegal(s, kicks[k], rotation)
    ensures forall j :: i <= j < k ==> !KickLegal(s, kicks[j], rotation)
    decreases |kicks| - i
  {
    if i == |kicks| then i
    else if KickLegal(s, kicks[i], rotation) then i
    else FirstKick(s, kicks, rotation, i + 1)
  }

  /** `rotate`: turn in place if that is legal, else take the first legal wall kick of
      the table row for the current rotation, else do nothing. */
  function Rotate(s: State): (r: State)
    requires Proper(s)
    ensures Proper(r)
    ensures s.gameEnd ==> r == s
    ensures r == s || r == s.(x := r.x, y := r.y, rotation := Turned(s.rotation))
    ensures r != s ==> Legal(s, r.x, r.y, r.rotation)
    ensures !s.gameEnd && Legal(s, s.x, s.y, Turned(s.rotation)) ==>
      r == s.(rotation := Turned(s.rotation))
    ensures !s.gameEnd && !Legal(s, s.x, s.y, Turned(s.rotation)) ==>
      (r == s <==> forall j :: 0 <= j < |KicksFor(s.block, s.rotation)| ==>
        !KickLegal(s, KicksFor(s.block, s.rotation)[j], Turned(s.rotation)))
  {
    var kicks := KicksFor(s.block, s.rotation);
    RotateWithFacts(s, kicks);
    RotateWith(s, kicks)
  }

  lemma RotateWithFacts(s: State, kicks: seq<Offset>)
    requires Proper(s)
    ensures var r := RotateWith(s, kicks);
      && Proper(r)
      && (s.gameEnd ==> r == s)
      && (r == s || r == s.(x := r.x, y := r.y, rotation := Turned(s.rotation)))
      && (r != s ==> Legal(s, r.x, r.y, r.rotation))
      && (!s.gameEnd && Legal(s, s.x, s.y, Turned(s.rotation)) ==>
            r == s.(rotation := Turned(s.rotation)))
      && (!s.gameEnd && !Legal(s, s.x, s.y, Turned(s.rotation)) ==>
            (r == s <==> forall j :: 0 <= j < |kicks| ==> !KickLegal(s, kicks[j], Turned(s.rotation))))
  {
  }

  /** `rotate` with the kick candidates as a parameter. */
  function RotateWith(s: State, kicks: seq<Offset>): (r: State)
    requires Proper(s)
    ensures Proper(r)
    ensures s.gameEnd ==> r == s
    ensures r == s || r == s.(x := r.x, y := r.y, rotation := Turned(s.rotation))
    ensures r != s ==> Legal(s, r.x, r.y, r.rotation)
    ensures !s.gameEnd && Legal(s, s.x, s.y, Turned(s.rotation)) ==>
      r == s.(rotation := Turned(s.rotation))
    ensures !s.gameEnd && !Legal(s, s.x, s.y, Turned(s.rotation)) ==>
      (r == s <==> forall j :: 0 <= j < |kicks| ==> !KickLegal(s, kicks[j], Turned(s.rotation)))
  {
    if s.gameEnd then s
    else
      var turned := Turned(s.rotation);
      if Legal(s, s.x, s.y, turned) then s.(rotation := turned)
      else KickInto(s, kicks, turned)
  }

  /** The kick loop of `rotate`: move by the first legal candidate and take rotation
      state `turned`, or stay put when no candidate is legal. */
  function KickInto(s: State, kicks: seq<Offset>, turned: nat): (r: State)
    requires Proper(s) && turned < Rotations && turned != s.rotation
    ensures r == s || r == s.(x := r.x, y := r.y, rotation := turned)
    ensures r != s ==> Legal(s, r.x, r.y, turned)
    ensures r == s <==> forall j :: 0 <= j < |kicks| ==> !KickLegal(s, kicks[j], turned)
  {
    var k := FirstKick(s, kicks, turned, 0);
    if k < |kicks| then Kicked(s, kicks[k], turned) else s
  }

  /** The piece shifted by `kick` and turned to `turned`, where that is legal. */
  function Kicked(s: State, kick: Offset, turned: nat): (r: State)
    requires Proper(s) && turned < Rotations && KickLegal(s, kick, turned)
    ensures r == s.(x := r.x, y := r.y, rotation := turned)
    ensures Legal(s, r.x, r.y, turned)
  {
    s.(x := s.x + kick.dx, y := s.y + kick.dy, rotation := turned)
  }

  /** The first legal candidate wins: when turning in place fails and kick `k` is the first
      legal one, the piece lands exactly there. */
  lemma FirstLegalKickWins(s: State, k: nat)
    requires Proper(s) && !s.gameEnd && k < 4
    requires !Legal(s, s.x, s.y, Turned(s.rotation))
    requires KickLegal(s, KicksFor(s.block, s.rotation)[k], Turned(s.rotation))
    requires forall j :: 0 <= j < k ==>
      !KickLegal(s, KicksFor(s.block, s.rotation)[j], Turned(s.rotation))
    ensures var kick := KicksFor(s.block, s.rotation)[k];
      Rotate(s) == s.(x := s.x + kick.dx, y := s.y + kick.dy, rotation := Turned(s.rotation))
  {
    FirstLegalWins(s, KicksFor(s.block, s.rotation), k);
  }

  lemma FirstLegalWins(s: State, kicks: seq<Offset>, k: nat)
    requires Proper(s) && !s.gameEnd && k < |kicks|
    requires !Legal(s, s.x, s.y, Turned(s.rotation))
    requires KickLegal(s, kicks[k], Turned(s.rotation))
    requires forall j :: 0 <= j < k ==> !KickLegal(s, kicks[j], Turned(s.rotation))
    ensures RotateWith(s, kicks) ==
      s.(x := s.x + kicks[k].dx, y := s.y + kicks[k].dy, rotation := Turned(s.rotation))
  {
    var turned := Turned(s.rotation);
    FirstKickIs(s, kicks, turned, k);
    TurnFails(s, kicks);
    KickIntoFirst(s, kicks, turned);
  }

  /** When turning in place fails, the search over the candidates decides. */
  lemma TurnFails(s: State, kicks: seq<Offset>)
    requires Proper(s) && !s.gameEnd
    requires !Legal(s, s.x, s.y, Turned(s.rotation))
    ensures RotateWith(s, kicks) == KickInto(s, kicks, Turned(s.rotation))
  {
  }

  /** The search's candidate, when there is one, is where the piece goes. */
  lemma KickIntoFirst(s: State, kicks: seq<Offset>, turned: nat)
    requires Proper(s) && turned < Rotations && turned != s.rotation
    ensures var k := FirstKick(s, kicks, turned, 0);
      k < |kicks| ==>
        KickInto(s, kicks, turned) == s.(x := s.x + kicks[k].dx, y := s.y + kicks[k].dy, rotation := turned)
  {
  }

  /** The search stops at the first legal candidate. */
  lemma FirstKickIs(s: State, kicks: seq<Offset>, rotation: nat, k: nat)
    requires Proper(s) && rotation < Rotations && k < |kicks|
    requires KickLegal(s, kicks[k], rotation)
    requires forall j :: 0 <= j < k ==> !KickLegal(s, kicks[j], rotation)
    ensures FirstKick(s, kicks, rotation, 0) == k
  {
  }

  /** The square never needs a kick: wherever it stands legally, it turns in place. */
  lemma SquareTurnsInPlace(s: State)
    requires Proper(s) && !s.gameEnd && s.block == OPiece && Legal(s, s.x, s.y, s.rotation)
    ensures Rotate(s) == s.(rotation := Turned(s.rotation))
  {
    SquareTurnLegal(s);
    TurnInPlace(s);
  }

  lemma SquareTurnLegal(s: State)
    requires Proper(s) && s.block == OPiece && Legal(s, s.x, s.y, s.rotation)
    ensures Legal(s, s.x, s.y, Turned(s.rotation))
  {
    var turned := Turned(s.rotation);
    OShapeSymmetric(s.rotation);
    OShapeSymmetric(turned);
    SameShapeSameCollision(s.grid, s.block, s.x, s.y, s.rotation, turned);
  }

  lemma TurnInPlace(s: State)
    requires Proper(s) && !s.gameEnd && Legal(s, s.x, s.y, Turned(s.rotation))
    ensures Rotate(s) == s.(rotation := Turned(s.rotation))
  {
  }

  // ---------------------------------------------------------------------------
  // Locking, lines, scoring

  /** `placeBlock`: write the piece into its four cells, respawn, draw the next piece. */
  function PlaceBlock(s: State, rolls: seq<nat>): (r: State)
    requires Proper(s) && Placed(s) && InRange(s.queue) && ValidRolls(rolls, Kinds)
    ensures Proper(r) && Placed(r) && InRange(r.queue)
    ensures forall c, y :: 0 <= c < Columns && 0 <= y < Height ==>
      r.grid[c][y] == if (c, y) in Cells(s.block, s.rotation, s.x, s.y) then s.block else s.grid[c][y]
    ensures (r.x, r.y, r.rotation) == (SpawnX, SpawnY, 0)
    ensures |s.queue| >= LowWater ==> [r.block] + r.queue == s.queue
    ensures |s.queue| < LowWater ==>
      multiset([r.block] + r.queue) == multiset(s.queue) + multiset(AllKinds())
    ensures |s.queue| > 0 ==> r.block == s.queue[0]
    ensures |s.queue| < LowWater ==>
      && |s.queue| <= 1 + |r.queue|
      && ([r.block] + r.queue)[..|s.queue|] == s.queue
      && IsBag(([r.block] + r.queue)[|s.queue|..])
    ensures r.(grid := s.grid, x := s.x, y := s.y, block := s.block, rotation := s.rotation, queue := s.queue) == s
  {
    var grid := Stamp(s.grid, Cells(s.block, s.rotation, s.x, s.y), s.block);
    var next := GetBlock(s.queue, rolls);
    GetBlockInRange(s.queue, rolls);
    SpawnInGrid(next.0);
    s.(grid := grid, x := SpawnX, y := SpawnY, block := next.0, rotation := 0, queue := next.1)
  }

  /** `checkEnd`: the game ends when the current piece does not fit where it stands. */
  function CheckEnd(s: State): (r: State)
    requires Proper(s)
    ensures r == s.(gameEnd := r.gameEnd)
    ensures r.gameEnd <==> s.gameEnd || !Legal(s, s.x, s.y, s.rotation)
  {
    if !Legal(s, s.x, s.y, s.rotation) then s.(gameEnd := true) else s
  }

  /** `checkLines`: record the full rows in `fullLines` and `animate`; report whether any. */
  function CheckLines(s: State): (r: (State, bool))
    requires Proper(s)
    ensures r.0 == s.(fullLines := r.0.fullLines, animate := r.0.animate)
    ensures forall y :: y in r.0.fullLines <==> 0 <= y < Height && FullRow(s.grid, y)
    ensures forall i, j :: 0 <= i < j < |r.0.fullLines| ==> r.0.fullLines[i] < r.0.fullLines[j]
    ensures |r.0.animate| == Height
    ensures forall y :: 0 <= y < Height ==> (r.0.animate[y] <==> FullRow(s.grid, y))
    ensures r.1 <==> exists y :: 0 <= y < Height && FullRow(s.grid, y)
    ensures r.1 <==> FullCount(Rows(s.grid), Empty) > 0
  {
    var lines := FullLines(s.grid);
    AnyFullLine(s.grid);
    (s.(fullLines := lines, animate := RowFlags(s.grid)),
     |lines| > 0)
  }

  /** The `animate` array: one flag per row, set on the full ones. */
  function RowFlags(g: Grid): (flags: seq<bool>)
    requires WellFormed(g)
    ensures |flags| == Height
    ensures forall y :: 0 <= y < Height ==> (flags[y] <==> FullRow(g, y))
  {
    seq(Height, y requires 0 <= y < Height => FullRow(g, y))
  }

  /** `clearLines`: compact the full rows away, score them if there were any, and forget
      `fullLines`. */
  function ClearLines(s: State): (r: State)
    requires Proper(s)
    ensures Proper(r)
    ensures r == s.(grid := r.grid, tally := r.tally, fullLines := [])
    ensures r.grid == Compact(s.grid)
    ensures forall y :: 0 <= y < Height ==> !FullRow(r.grid, y)
    ensures FullCount(Rows(s.grid), Empty) == 0 ==> r.grid == s.grid && r.tally == s.tally
    ensures FullCount(Rows(s.grid), Empty) > 0 ==>
      r.tally == UpdateScore(s.tally, FullCount(Rows(s.grid), Empty))
    ensures r.tally.lines == s.tally.lines + FullCount(Rows(s.grid), Empty)
  {
    var n := FullCount(Rows(s.grid), Empty);
    CompactNoFullRows(s.grid);
    assert n == 0 ==> Compact(s.grid) == s.grid by {
      if n == 0 { CompactIdentity(s.grid); }
    }
    s.(grid := Compact(s.grid), tally := if n > 0 then UpdateScore(s.tally, n) else s.tally,
       fullLines := [])
  }

  // ---------------------------------------------------------------------------
  // The tick and the animation gate

  /** `tick`. */
  function Tick(s: State, rolls: seq<nat>): (r: (State, Outcome))
    requires Proper(s) && Placed(s) && InRange(s.queue) && ValidRolls(rolls, Kinds)
    ensures Proper(r.0)
    ensures s.gameEnd ==> r == (s, Undefined)
    ensures !s.gameEnd && s.isAnimating ==> r == (s, Returned(true))
    ensures !s.gameEnd && !s.isAnimating && Legal(s, s.x, s.y - 1, s.rotation) ==>
      r == (s.(y := s.y - 1), Returned(false))
    ensures !s.gameEnd && !s.isAnimating && !Legal(s, s.x, s.y - 1, s.rotation) ==>
      && r.1 == Returned(true)
      && (r.0.x, r.0.y, r.0.rotation) == (SpawnX, SpawnY, 0)
      && (r.0.isAnimating <==> exists y :: 0 <= y < Height && FullRow(PlaceBlock(s, rolls).grid, y))
      && (r.0.grid, r.0.block, r.0.queue) ==
           (PlaceBlock(s, rolls).grid, PlaceBlock(s, rolls).block, PlaceBlock(s, rolls).queue)
      && (r.0.isAnimating ==>
            !r.0.gameEnd && r.0.tally == s.tally && r.0.fullLines == FullLines(r.0.grid))
      && (!r.0.isAnimating ==> r.0.tally == s.tally && r.0.fullLines == [])
      && (!r.0.isAnimating ==> (r.0.gameEnd <==> !Legal(r.0, SpawnX, SpawnY, 0)))
  {
    if s.gameEnd then (s, Undefined)
    else if s.isAnimating then (s, Returned(true))
    else if Legal(s, s.x, s.y - 1, s.rotation) then (s.(y := s.y - 1), Returned(false))
    else
      var placed := PlaceBlock(s, rolls);
      var (checked, full) := CheckLines(placed);
      if full then (checked.(isAnimating := true), Returned(true))
      else (CheckEnd(ClearLines(checked)), Returned(true))
  }

  /** main.js when the line-clear animation has run its course, as written: clear the
      animation flag and call `clearLines`, with no `checkEnd` after it. */
  function AnimationDoneAsWritten(s: State): (r: State)
    requires Proper(s)
    ensures Proper(r) && !r.isAnimating && r.gameEnd == s.gameEnd
    ensures (r.x, r.y, r.block, r.rotation) == (s.x, s.y, s.block, s.rotation)
    ensures forall y :: 0 <= y < Height ==> !FullRow(r.grid, y)
    ensures r.grid == Compact(s.grid) && r.fullLines == []
    ensures r.tally == if FullCount(Rows(s.grid), Empty) > 0
      then UpdateScore(s.tally, FullCount(Rows(s.grid), Empty)) else s.tally
  {
    ClearLines(s.(isAnimating := false))
  }

  /** The same with the `checkEnd` every other path that changes the grid under a fresh
      piece performs (tetris_logic.js, `tick`). */
  function AnimationDone(s: State): (r: State)
    requires Proper(s)
    ensures Proper(r) && !r.isAnimating
    ensures forall y :: 0 <= y < Height ==> !FullRow(r.grid, y)
    ensures !r.gameEnd ==> Legal(r, r.x, r.y, r.rotation)
    ensures r.gameEnd <==> s.gameEnd || !Legal(r, r.x, r.y, r.rotation)
    ensures (r.x, r.y, r.block, r.rotation) == (s.x, s.y, s.block, s.rotation)
    ensures r.grid == Compact(s.grid) && r.fullLines == []
    ensures r.tally == if FullCount(Rows(s.grid), Empty) > 0
      then UpdateScore(s.tally, FullCount(Rows(s.grid), Empty)) else s.tally
  {
    CheckEnd(AnimationDoneAsWritten(s))
  }

  /** What drives the engine: the four keys, the drop timer, and the end of the
      line-clear animation (which main.js only raises while `isAnimating`). */
  datatype Event = KeyLeft | KeyRight | KeyDown | KeyUp | Timer(rolls: seq<nat>) | AnimationOver

  predicate Admissible(e: Event) {
    e.Timer? ==> ValidRolls(e.rolls, Kinds)
  }

  // ---------------------------------------------------------------------------
  // Invariants

  /** What holds of every state the engine reaches. */
  predicate Inv(s: State) {
    && Proper(s) && Placed(s)
    && InRange(s.queue)
    && Consistent(s.tally)
    && (!s.isAnimating ==> FullCount(Rows(s.grid), Empty) == 0 && s.fullLines == [])
    && (s.isAnimating ==>
          && !s.gameEnd
          && FullCount(Rows(s.grid), Empty) < |Rewards|
          && s.fullLines == FullLines(s.grid))
  }

  /** And, with the animation gate followed by `checkEnd`: a live piece at rest never
      overlaps the stack. */
  predicate Sound(s: State) {
    Inv(s) && (!s.gameEnd && !s.isAnimating ==> Legal(s, s.x, s.y, s.rotation))
  }

  /** One event: a key press, a timer tick or the end of the animation, with `checkEnd`
      after the end of the animation. */
  function Step(s: State, e: Event): (r: State)
    requires Proper(s) && Placed(s) && InRange(s.queue) && Admissible(e)
    ensures Proper(r)
    ensures !e.Timer? && !e.AnimationOver? ==> r == s.(x := r.x, y := r.y, rotation := r.rotation)
    ensures e.KeyLeft? ==> r == MoveLeft(s)
    ensures e.KeyRight? ==> r == MoveRight(s)
    ensures e.KeyDown? ==> r == MoveDown(s)
    ensures e.KeyUp? ==> r == Rotate(s)
    ensures e.Timer? ==> r == Tick(s, e.rolls).0
    ensures e.AnimationOver? && s.isAnimating ==> r == AnimationDone(s)
    ensures e.AnimationOver? ==> !r.isAnimating && (!s.isAnimating ==> r == s)
  {
    match e
    case KeyLeft => MoveLeft(s)
    case KeyRight => MoveRight(s)
    case KeyDown => MoveDown(s)
    case KeyUp => Rotate(s)
    case Timer(rolls) => Tick(s, rolls).0
    case AnimationOver => if s.isAnimating then AnimationDone(s) else s
  }

  /** One event as main.js is written: the end of the animation clears the rows and
      leaves the piece and `gameEnd` alone; every other event is as in `Step`. */
  function StepAsWritten(s: State, e: Event): (r: State)
    requires Proper(s) && Placed(s) && InRange(s.queue) && Admissible(e)
    ensures Proper(r)
    ensures !(e.AnimationOver? && s.isAnimating) ==> r == Step(s, e)
    ensures e.AnimationOver? && s.isAnimating ==>
      && !r.isAnimating && r.gameEnd == s.gameEnd
      && (r.x, r.y, r.block, r.rotation) == (s.x, s.y, s.block, s.rotation)
      && (forall y :: 0 <= y < Height ==> !FullRow(r.grid, y))
      && r.grid == Compact(s.grid) && r.fullLines == []
      && r.tally == if FullCount(Rows(s.grid), Empty) > 0
           then UpdateScore(s.tally, FullCount(Rows(s.grid), Empty)) else s.tally
  {
    if e.AnimationOver? && s.isAnimating then AnimationDoneAsWritten(s) else Step(s, e)
  }

  lemma InitSound(first: nat, rolls: seq<nat>)
    requires first < Kinds && ValidRolls(rolls, Kinds - 1)
    ensures Sound(Init(first, rolls))
  {
    var s := Init(first, rolls);
    SpawnFitsEmptyBoard(s.grid, first);
    assert FullCount(Rows(s.grid), Empty) == 0 by {
      forall r | 0 <= r < Height ensures !IsFull(Rows(s.grid)[r], Empty) {
        FullRowCells(s.grid, r);
        assert !(s.grid[Left][r] != Empty);
      }
      KeepIdentity(Rows(s.grid), Empty);
    }
    forall i | 0 <= i < |s.queue| ensures s.queue[i] < Kinds {
      assert s.queue[i] in multiset([s.block] + s.queue);
      assert s.queue[i] in multiset(AllKinds());
    }
  }

  /** A move, a drop by one row or a turn to a legal place keeps the invariant, and the
      piece that moved is where it may be. */
  lemma ShiftKeepsInv(s: State, r: State)
    requires Inv(s) && r.rotation < Rotations
    requires r == s.(x := r.x, y := r.y, rotation := r.rotation)
    requires r == s || Legal(s, r.x, r.y, r.rotation)
    ensures Inv(r)
    ensures r != s ==> Legal(r, r.x, r.y, r.rotation)
  {
    if r != s {
      LegalInGrid(s.grid, s.block, r.x, r.y, r.rotation);
      assert Legal(r, r.x, r.y, r.rotation);
    }
  }

  /** Key presses keep the invariant, and keep a sound state sound. */
  lemma MovesKeepSound(s: State, e: Event)
    requires Inv(s) && (e.KeyLeft? || e.KeyRight? || e.KeyDown? || e.KeyUp?)
    ensures Inv(Step(s, e))
    ensures Sound(s) ==> Sound(Step(s, e))
  {
    var r := Step(s, e);
    if e.KeyLeft? {
      assert r == MoveLeft(s);
      ShiftKeepsInv(s, r);
    } else if e.KeyRight? {
      assert r == MoveRight(s);
      ShiftKeepsInv(s, r);
    } else if e.KeyDown? {
      assert r == MoveDown(s);
      ShiftKeepsInv(s, r);
    } else {
      RotateKeepsSound(s);
    }
  }

  lemma RotateKeepsSound(s: State)
    requires Inv(s)
    ensures Inv(Rotate(s))
    ensures Sound(s) ==> Sound(Rotate(s))
  {
    var r := Rotate(s);
    assert r == s || Legal(s, r.x, r.y, r.rotation);
    ShiftKeepsInv(s, r);
  }

  /** Placing a piece on a board without full rows fills at most four rows. */
  lemma PlaceBlockFacts(s: State, rolls: seq<nat>)
    requires Inv(s) && ValidRolls(rolls, Kinds) && !s.isAnimating
    ensures var p := PlaceBlock(s, rolls);
      && FullCount(Rows(p.grid), Empty) < |Rewards|
      && (forall y :: 0 <= y < Height && FullRow(p.grid, y) ==>
            exists i :: 0 <= i < 4 && Cells(s.block, s.rotation, s.x, s.y)[i].1 == y)
  {
    var p := PlaceBlock(s, rolls);
    var cells := Cells(s.block, s.rotation, s.x, s.y);
    assert p.grid == Stamp(s.grid, cells, s.block);
    StampFullRows(s.grid, cells, s.block);
  }

  /** The locking tick: place the piece, then either start the animation or settle. The
      result is sound even when the piece overlapped the stack before. */
  lemma LockKeepsSound(s: State, rolls: seq<nat>)
    requires Inv(s) && ValidRolls(rolls, Kinds) && !s.gameEnd && !s.isAnimating
    requires !Legal(s, s.x, s.y - 1, s.rotation)
    ensures Sound(Tick(s, rolls).0)
  {
    var p := PlaceBlock(s, rolls);
    PlaceBlockFacts(s, rolls);
    PlaceKeepsFlags(s, rolls);
    TickLocks(s, rolls);
    if CheckLines(p).1 {
      LockAnimates(p);
    } else {
      LockSettles(p);
    }
  }

  /** Placing a piece leaves the tally and the two flags alone. */
  lemma PlaceKeepsFlags(s: State, rolls: seq<nat>)
    requires Proper(s) && Placed(s) && InRange(s.queue) && ValidRolls(rolls, Kinds)
    ensures var p := PlaceBlock(s, rolls);
      p.tally == s.tally && p.gameEnd == s.gameEnd && p.isAnimating == s.isAnimating
  {
  }

  /** What a locking tick leaves, in terms of the placed state. */
  lemma TickLocks(s: State, rolls: seq<nat>)
    requires Proper(s) && Placed(s) && InRange(s.queue) && ValidRolls(rolls, Kinds)
    requires !s.gameEnd && !s.isAnimating && !Legal(s, s.x, s.y - 1, s.rotation)
    ensures var p := PlaceBlock(s, rolls);
      Tick(s, rolls).0 ==
        if CheckLines(p).1 then CheckLines(p).0.(isAnimating := true)
        else CheckEnd(ClearLines(CheckLines(p).0))
  {
  }

  /** A lock that filled rows starts the animation in a consistent state. */
  lemma LockAnimates(p: State)
    requires Proper(p) && Placed(p) && InRange(p.queue) && Consistent(p.tally) && !p.gameEnd
    requires FullCount(Rows(p.grid), Empty) < |Rewards|
    requires CheckLines(p).1
    ensures Sound(CheckLines(p).0.(isAnimating := true))
  {
  }

  /** A lock that filled no row settles: nothing to clear, then the spawn is checked. */
  lemma LockSettles(p: State)
    requires Proper(p) && Placed(p) && InRange(p.queue) && Consistent(p.tally) && !p.isAnimating
    requires !CheckLines(p).1
    ensures Sound(CheckEnd(ClearLines(CheckLines(p).0)))
  {
    var c := CheckLines(p).0;
    assert FullCount(Rows(c.grid), Empty) == 0;
    var cleared := ClearLines(c);
    assert cleared == c.(fullLines := []);
    assert Inv(cleared);
  }

  /** The end of the animation, as written, keeps the invariant. */
  lemma AnimationDoneAsWrittenKeepsInv(s: State)
    requires Inv(s) && s.isAnimating
    ensures Inv(AnimationDoneAsWritten(s))
  {
    UpdateKeepsConsistent(s.tally, FullCount(Rows(s.grid), Empty));
    CompactNoFullRows(s.grid);
  }

  /** With `checkEnd` after it, it restores soundness too. */
  lemma AnimationDoneKeepsSound(s: State)
    requires Inv(s) && s.isAnimating
    ensures Sound(AnimationDone(s))
  {
    AnimationDoneAsWrittenKeepsInv(s);
  }

  /** Every event keeps a sound state sound. */
  lemma StepKeepsSound(s: State, e: Event)
    requires Sound(s) && Admissible(e)
    ensures Sound(Step(s, e))
  {
    match e
    case Timer(rolls) =>
      TickKeepsSound(s, rolls);
    case AnimationOver =>
      if s.isAnimating {
        StepAnimationOver(s);
        AnimationDoneKeepsSound(s);
      }
    case _ =>
      MovesKeepSound(s, e);
  }

  /** The timer keeps the invariant, and keeps a sound state sound. */
  lemma TickKeepsSound(s: State, rolls: seq<nat>)
    requires Inv(s) && ValidRolls(rolls, Kinds)
    ensures Inv(Tick(s, rolls).0)
    ensures Sound(s) ==> Sound(Tick(s, rolls).0)
  {
    if !s.gameEnd && !s.isAnimating {
      if Legal(s, s.x, s.y - 1, s.rotation) {
        TickDrops(s, rolls);
        DropKeepsSound(s);
      } else {
        LockKeepsSound(s, rolls);
      }
    }
  }

  lemma TickDrops(s: State, rolls: seq<nat>)
    requires Proper(s) && Placed(s) && InRange(s.queue) && ValidRolls(rolls, Kinds)
    requires !s.gameEnd && !s.isAnimating && Legal(s, s.x, s.y - 1, s.rotation)
    ensures Tick(s, rolls).0 == s.(y := s.y - 1)
  {
  }

  lemma DropKeepsSound(s: State)
    requires Inv(s) && Legal(s, s.x, s.y - 1, s.rotation)
    ensures Inv(s.(y := s.y - 1)) && Legal(s.(y := s.y - 1), s.x, s.y - 1, s.rotation)
  {
    ShiftKeepsInv(s, s.(y := s.y - 1));
  }

  /** Once the game has ended nothing changes any more. */
  lemma GameOverIsFinal(s: State, e: Event)
    requires Inv(s) && Admissible(e) && s.gameEnd
    ensures Step(s, e) == s
  {
  }

  /** The score, the level and the line count never decrease, and the game never
      un-ends. */
  lemma StepMonotone(s: State, e: Event)
    requires Inv(s) && Admissible(e)
    ensures Step(s, e).tally.score.Points? && Step(s, e).tally.score.value >= s.tally.score.value
    ensures Step(s, e).tally.level >= s.tally.level
    ensures Step(s, e).tally.lines >= s.tally.lines
    ensures s.gameEnd ==> Step(s, e).gameEnd
  {
    if e.AnimationOver? && s.isAnimating {
      assert e == AnimationOver;
      StepAnimationOver(s);
      AnimationDoneMonotone(s);
    } else {
      StepKeepsTally(s, e);
    }
  }

  lemma StepAnimationOver(s: State)
    requires Proper(s) && Placed(s) && InRange(s.queue) && s.isAnimating
    ensures Step(s, AnimationOver) == AnimationDone(s)
  {
  }

  /** The end of the animation scores the cleared rows and never lowers a counter. */
  lemma AnimationDoneMonotone(s: State)
    requires Inv(s) && s.isAnimating
    ensures AnimationDone(s).tally.score.Points?
    ensures AnimationDone(s).tally.score.value >= s.tally.score.value
    ensures AnimationDone(s).tally.level >= s.tally.level
    ensures AnimationDone(s).tally.lines >= s.tally.lines
  {
    var n := FullCount(Rows(s.grid), Empty);
    UpdateKeepsConsistent(s.tally, n);
    var cleared := ClearLines(s.(isAnimating := false));
    assert AnimationDone(s).tally == cleared.tally;
  }

  /** Every event but the end of the animation leaves the tally as it was. */
  lemma StepKeepsTally(s: State, e: Event)
    requires Inv(s) && Admissible(e) && !(e.AnimationOver? && s.isAnimating)
    ensures Step(s, e).tally == s.tally
    ensures s.gameEnd ==> Step(s, e).gameEnd
  {
    match e
    case Timer(rolls) =>
      if !s.gameEnd && !s.isAnimating && !Legal(s, s.x, s.y - 1, s.rotation) {
        LockKeepsTally(s, rolls);
      }
    case KeyUp =>
      var r := Rotate(s);
      assert r == s || r == s.(x := r.x, y := r.y, rotation := r.rotation);
    case _ =>
  }

  /** A lock scores nothing: rows it fills are scored when the animation ends. */
  lemma LockKeepsTally(s: State, rolls: seq<nat>)
    requires Proper(s) && Placed(s) && InRange(s.queue) && ValidRolls(rolls, Kinds)
    requires !s.gameEnd && !s.isAnimating && !Legal(s, s.x, s.y - 1, s.rotation)
    ensures Tick(s, rolls).0.tally == s.tally
  {
    var p := PlaceBlock(s, rolls);
    PlaceKeepsFlags(s, rolls);
    TickLocks(s, rolls);
    if !CheckLines(p).1 {
      assert FullCount(Rows(CheckLines(p).0.grid), Empty) == 0;
    }
  }

  /** A whole game: the state after a run of events. */
  function Run(s: State, events: seq<Event>): (r: State)
    requires Sound(s)
    requires forall i :: 0 <= i < |events| ==> Admissible(events[i])
    ensures Sound(r)
    ensures r.tally.score.value >= s.tally.score.value
    ensures s.gameEnd ==> r == s
    decreases |events|
  {
    if |events| == 0 then s
    else Run(Advance(s, events[0]), events[1..])
  }

  /** One step of `Run`: `Step`, with soundness, the score and the latch carried over. */
  function Advance(s: State, e: Event): (next: State)
    requires Sound(s) && Admissible(e)
    ensures next == Step(s, e)
    ensures Sound(next) && next.tally.score.value >= s.tally.score.value
    ensures s.gameEnd ==> next == s
  {
    StepKeepsSound(s, e);
    StepMonotone(s, e);
    if s.gameEnd then GameOverIsFinal(s, e); Step(s, e) else Step(s, e)
  }

  // ---------------------------------------------------------------------------
  // The event loop as written

  /** As written, every event keeps the invariant `Inv` (not `Sound`: see module
      ReleaseGap). */
  lemma StepAsWrittenKeepsInv(s: State, e: Event)
    requires Inv(s) && Admissible(e)
    ensures Inv(StepAsWritten(s, e))
  {
    if e.AnimationOver? && s.isAnimating {
      AnimationDoneAsWrittenKeepsInv(s);
    } else {
      match e
      case Timer(rolls) =>
        TickKeepsSound(s, rolls);
      case AnimationOver =>
      case _ =>
        MovesKeepSound(s, e);
    }
  }

  /** As written, no event lowers the score, the level or the line count, and none
      un-ends the game. */
  lemma StepAsWrittenMonotone(s: State, e: Event)
    requires Inv(s) && Admissible(e)
    ensures StepAsWritten(s, e).tally.score.Points?
    ensures StepAsWritten(s, e).tally.score.value >= s.tally.score.value
    ensures StepAsWritten(s, e).tally.level >= s.tally.level
    ensures StepAsWritten(s, e).tally.lines >= s.tally.lines
    ensures s.gameEnd ==> StepAsWritten(s, e).gameEnd
  {
    if e.AnimationOver? && s.isAnimating {
      AnimationDoneMonotone(s);
      assert AnimationDoneAsWritten(s).tally == AnimationDone(s).tally;
    } else {
      StepMonotone(s, e);
    }
  }

  /** As written, once the game has ended nothing changes any more. */
  lemma GameOverIsFinalAsWritten(s: State, e: Event)
    requires Inv(s) && Admissible(e) && s.gameEnd
    ensures StepAsWritten(s, e) == s
  {
    GameOverIsFinal(s, e);
  }

  /** A whole game as main.js drives it. */
  function RunAsWritten(s: State, events: seq<Event>): (r: State)
    requires Inv(s)
    requires forall i :: 0 <= i < |events| ==> Admissible(events[i])
    ensures Inv(r)
    ensures r.tally.score.value >= s.tally.score.value
    ensures s.gameEnd ==> r == s
    decreases |events|
  {
    if |events| == 0 then s
    else
      StepAsWrittenKeepsInv(s, events[0]);
      StepAsWrittenMonotone(s, events[0]);
      if s.gameEnd then
        GameOverIsFinalAsWritten(s, events[0]); RunAsWritten(StepAsWritten(s, events[0]), events[1..])
      else RunAsWritten(StepAsWritten(s, events[0]), events[1..])
  }

  /** A run is its first event's step followed by the run of the rest. */
  lemma RunUnfolds(s: State, e: Event, events: seq<Event>)
    requires Sound(s) && Admissible(e)
    requires forall i :: 0 <= i < |events| ==> Admissible(events[i])
    ensures Sound(Step(s, e))
    ensures Run(s, [e] + events) == Run(Step(s, e), events)
  {
    StepKeepsSound(s, e);
    assert ([e] + events)[0] == e && ([e] + events)[1..] == events;
  }

  /** The same for the loop as written. */
  lemma RunAsWrittenUnfolds(s: State, e: Event, events: seq<Event>)
    requires Inv(s) && Admissible(e)
    requires forall i :: 0 <= i < |events| ==> Admissible(events[i])
    ensures Inv(StepAsWritten(s, e))
    ensures RunAsWritten(s, [e] + events) == RunAsWritten(StepAsWritten(s, e), events)
  {
    StepAsWrittenKeepsInv(s, e);
    assert ([e] + events)[0] == e && ([e] + events)[1..] == events;
  }
}
