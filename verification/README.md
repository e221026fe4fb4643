# Tetris game logic in Dafny

This project models the game logic of a browser Tetris: the `tetris` class of
`tetris_logic.js` and the older `clear_full_rows` routine of `logic.js`. The `tetris`
class covers the board, the seven pieces and their rotation states, wall kicks, the
7-bag randomiser, locking, line detection and clearing, and scoring.

Every method of the class becomes a pure function over an immutable `State` record. The
modules follow the class:

- `Pieces`: the shape and kick tables.
- `Board`: the 14 x 24 grid, `checkCollision` and piece stamping.
- `RowFilter`: dropping full rows, shared by both line-clear routines.
- `LineClear`: the compaction done by `clearLines`.
- `Bag`: the queue and the 7-bag shuffle.
- `Scoring`: `updateScore`.
- `Engine`: the state record, the moves, rotation, `tick`, and the event loop that
  `main.js` drives.
- `ReleaseGap`: a gap in that event loop, shown on a concrete board.
- `RowClear`: `clear_full_rows` of `logic.js`.

Randomness is a parameter. Each `Math.floor(Math.random() * n)` is a "roll", an index
below `n`. A shuffle takes one roll per piece, and every property is proved for all
valid rolls.

The board is the engine's padded grid: `grid[x][y]` with y = 0 at the bottom, and -1
for an empty cell. Only columns 2..11 and rows 0..21 are open to a piece. The columns
outside that range start empty like every other cell. They act as walls only through
the bounds test in `checkCollision`.

The event loop of `main.js` is modelled twice. `Engine.StepAsWritten` and
`Engine.RunAsWritten` follow the code: the end of the line-clear animation clears the
rows and calls nothing else. `Engine.Step` and `Engine.Run` add the missing `checkEnd`
there (see Findings).

For the loop as written, the invariant `Engine.Inv` is proved to hold from the
constructor on, across every key press, timer tick and end of the animation. Under it:

- the piece always lies inside the 14 x 24 array and the queue holds valid pieces;
- at most four rows are ever full at once, so the score stays a number;
- the level is always the number of cleared rows divided by ten;
- the score never decreases, and an ended game never changes again.

For the corrected loop, the stronger invariant `Engine.Sound` holds as well: the piece
never overlaps the stack while the game is on and no line-clear animation is running.
As written this fails (`ReleaseGap.AsWrittenReleaseOverlaps`).

## Model

| member | source | states |
|---|---|---|
| Pieces.Shape | tetris_logic.js:46-232 | every piece in every rotation state has four cell offsets, each within -1..2 on both axes |
| Pieces.ShapeCellsDistinct | tetris_logic.js:46-232 | the four cells of every shape are pairwise distinct, so a piece always covers four cells |
| Pieces.OShapeSymmetric | tetris_logic.js:76-101 | all four rotation states of the O piece list the same cells |
| Pieces.KicksFor | tetris_logic.js:245-347 | the kick row for a rotation has four candidates, each a shift of at most two columns and two rows |
| Board.InitialGrid | tetris_logic.js:10-19 | the new grid is 14 x 24 and every cell, border included, is empty (-1) |
| Board.CheckCollision | tetris_logic.js:348-360 | a placement is legal exactly when each of the piece's four cells lies in columns 2..11 and rows 0..21 on an empty cell |
| Board.SameShapeSameCollision | tetris_logic.js:348-360 | the legality test depends on the rotation only through the cells it selects |
| Board.LegalInGrid | tetris_logic.js:348-360 | a legal placement lies inside the 14 x 24 array, so writing it cannot index out of bounds |
| Board.SpawnFitsEmptyBoard | tetris_logic.js:25-28 | every piece fits at the spawn point (6, 19) in state 0 on an empty board |
| Board.Stamp | tetris_logic.js:416-418 | after writing a piece, exactly its cells hold the piece index and every other cell is unchanged |
| Board.FullLines | tetris_logic.js:390-402 | the list holds exactly the full rows, in strictly ascending order, one entry per full row |
| Board.AnyFullLine | tetris_logic.js:390-402 | some row is full exactly when the list of full rows is non-empty |
| Board.StampFullRows | tetris_logic.js:415-423 | placing a piece on a board with no full row makes at most four rows full, each one a row the piece touches |
| RowFilter.KeepAppend | tetris_logic.js:362-379 | dropping full rows distributes over concatenation, and so does counting them |
| RowFilter.KeepIdentity | tetris_logic.js:362-379 | a list is left unchanged exactly when none of its rows is full |
| RowFilter.KeepMembers | logic.js:129-135 | a row survives exactly when it was in the input and is not full |
| RowFilter.KeepPosition | tetris_logic.js:362-379 | a surviving row moves towards the front by exactly the number of full rows before it |
| RowFilter.KeepIdempotent | logic.js:129-135 | filtering a second time removes nothing |
| LineClear.RowsAfterRemove | tetris_logic.js:366-372 | one removal step deletes row y from the playfield, moves every row above it down by one and puts an empty row on top |
| LineClear.CompactNoFullRows | tetris_logic.js:362-379 | no row is full after the clear |
| LineClear.CompactIdentity | tetris_logic.js:362-379 | a board with no full row is left unchanged |
| LineClear.CompactKeepsOrder | tetris_logic.js:362-379 | a non-full row y moves down by exactly the number of full rows below it |
| LineClear.CompactTopEmpty | tetris_logic.js:362-379 | the top rows, one per cleared row, are empty after the clear |
| LineClear.RemoveFullRow | tetris_logic.js:366-373 | one round of the shifting loop on a full row leaves the compaction unchanged and one full row fewer |
| LineClear.ClearLinesLoop | tetris_logic.js:362-379 | the row-by-row loop (with `y--` after each removal) computes the compaction and counts the full rows |
| Bag.Shuffle | tetris_logic.js:40-43 | draining a bag with `splice` yields a permutation of it |
| Bag.ShuffleInjective | tetris_logic.js:40-43 | different valid rolls give different orders of a bag of distinct pieces |
| Bag.ShuffleOnto | tetris_logic.js:40-43 | every ordering of the bag is produced by some valid rolls; with the previous row, uniform rolls make all orderings equally likely |
| Bag.InitialQueue | tetris_logic.js:35-44 | the starting queue holds the six pieces other than the first, each once |
| Bag.InitialQueueInjective | tetris_logic.js:35-44 | the starting queue's order is set by the rolls: different rolls give different queues |
| Bag.InitialQueueOnto | tetris_logic.js:35-44 | every order of the six other pieces is the starting queue for some rolls |
| Bag.Refill | tetris_logic.js:405-410 | with six or more pieces waiting the queue is unchanged; with fewer, the old queue stays in front and one whole shuffled bag follows it |
| Bag.RefillInjective | tetris_logic.js:405-410 | the appended bag's order is set by the rolls: different rolls give different refilled queues |
| Bag.RefillOnto | tetris_logic.js:405-410 | every order of a whole bag is the one appended for some rolls |
| Bag.GetBlock | tetris_logic.js:404-413 | it returns the old head of the queue when there is one; with six or more pieces waiting, the rest of the queue is left; with fewer, the old queue is followed by one whole shuffled bag before the head is taken |
| Bag.GetBlockInRange | tetris_logic.js:404-413 | a queue of valid piece indices yields a valid piece and leaves a valid queue |
| Bag.DrawKeepsFair | tetris_logic.js:404-413 | drawing keeps the upcoming stream as a partial bag followed by whole bags |
| Bag.AppendBagFair | tetris_logic.js:406-409 | appending one shuffled bag keeps the stream a partial bag followed by whole bags, and leaves the partial bag as it was |
| Bag.DealtPiecesComeInBags | tetris_logic.js:35-44 | whatever the rolls, every aligned group of seven pieces dealt from a new game holds each piece exactly once |
| Scoring.UpdateScore | tetris_logic.js:381-388 | lines add up; the level rises by one exactly when the line count reaches the next multiple of ten, never by more; the reward is scaled by level + 1; a clear of five or more rows makes the score NaN |
| Scoring.UpdateKeepsConsistent | tetris_logic.js:381-388 | a clear of at most four rows keeps the level at lines / 10 and the score numeric, and raises the score exactly when rows were cleared |
| Scoring.BigClearLagsLevel | tetris_logic.js:385-387 | one call clearing twenty rows leaves level 1 while lines / 10 is 2 |
| Scoring.NaNAbsorbs | tetris_logic.js:383 | once NaN, the score stays NaN through any further clears |
| Scoring.ReplayConsistent | tetris_logic.js:381-388 | from a consistent tally, any run of clears of at most four rows keeps it consistent and never lowers the score |
| Engine.Init | tetris_logic.js:2-44 | a new game has an empty board, zero counters, the drawn piece `first` at (6, 19) in state 0, and the queue is the other six pieces in the order the rolls pick (`Bag.InitialQueue`), so the piece and the queue form one whole bag |
| Engine.MoveLeft | tetris_logic.js:452-459 | the piece shifts one column left exactly when the game is on and the target is legal; otherwise nothing changes |
| Engine.MoveRight | tetris_logic.js:461-468 | the piece shifts one column right exactly when the game is on and the target is legal; otherwise nothing changes |
| Engine.MoveDown | tetris_logic.js:470-477 | the piece drops one row exactly when the game is on and the target is legal; otherwise nothing changes |
| Engine.GetBottom | tetris_logic.js:502-504 | while the game is on, the piece is grounded exactly when a move down would be refused |
| Engine.LeftRightInverse | tetris_logic.js:452-468 | from a legal position, a left move that happened is undone by a right move, and the other way round |
| Engine.Turned | tetris_logic.js:481 | a quarter turn leads from state r to r + 1 for r below 3, and from 3 back to 0 |
| Engine.FirstKick | tetris_logic.js:488-497 | the search returns the first legal kick candidate, or reports that none is legal |
| Engine.Rotate | tetris_logic.js:479-500 | only x, y and rotation change, and rotation becomes (r + 1) mod 4; the piece turns in place when it can; it stays put exactly when no kick candidate is legal either; any new position is legal; nothing moves after the game has ended |
| Engine.KickInto | tetris_logic.js:485-497 | the kick loop either leaves the piece where it was or moves it to a legal position in the new rotation state, and it leaves it where it was exactly when no candidate is legal |
| Engine.FirstLegalKickWins | tetris_logic.js:484-497 | when turning in place fails and candidate k is the first legal one, the piece lands shifted by candidate k |
| Engine.SquareTurnsInPlace | tetris_logic.js:479-485 | the O piece never needs a kick: from any legal position it turns in place |
| Engine.PlaceBlock | tetris_logic.js:415-423 | the piece's cells take its index and every other cell keeps its value; the next piece is the old head of the queue, a short queue keeps its order with one whole bag appended behind it, and the piece appears at (6, 19) in state 0; counters and flags are untouched |
| Engine.CheckEnd | tetris_logic.js:425-429 | the game ends exactly when it had ended or the current piece does not fit; nothing else changes |
| Engine.CheckLines | tetris_logic.js:390-402 | `fullLines` lists exactly the full rows in ascending order; `animate[y]` is set exactly on the full rows; the result is true exactly when some row is full |
| Engine.ClearLines | tetris_logic.js:362-379 | the grid becomes the compaction `LineClear.Compact` describes, so no full row remains; the tally is updated with the number of full rows when there were any and is unchanged otherwise; `fullLines` is emptied |
| Engine.Tick | tetris_logic.js:431-450 | a tick returns undefined once the game has ended and true while animating; it drops the piece when the row below is free; otherwise it locks the piece and respawns, leaving the placed grid, and it starts the animation exactly when the lock filled a row, and then leaves the tally alone and records exactly the full rows in `fullLines`; when it filled none, the game ends exactly when the new piece does not fit at the spawn point |
| Engine.AnimationDoneAsWritten | main.js:488-492 | ending the animation turns it off, replaces the grid by `Compact` of it (no row full afterwards), scores the cleared rows with `UpdateScore` when there were any and empties `fullLines`, but the piece and the game-over flag are left as they were |
| Engine.AnimationDone | main.js:488-492 | the same compaction and scoring with `checkEnd` added: the game is over exactly when it was already over or the piece no longer fits after the clear, so a live piece always fits |
| Engine.InitSound | tetris_logic.js:2-44 | a new game satisfies the engine invariant |
| Engine.MovesKeepSound | tetris_logic.js:452-500 | moves and rotations keep `Inv`, and keep `Sound` |
| Engine.LockKeepsSound | tetris_logic.js:440-448 | a locking tick from any state satisfying `Inv` gives a sound state: at most four rows are full, and the piece that spawned either fits, ended the game, or the line-clear animation has started |
| Engine.TickKeepsSound | tetris_logic.js:431-450 | a tick keeps `Inv`, and keeps `Sound` |
| Engine.PlaceBlockFacts | tetris_logic.js:415-423 | on a board with no full row, a lock makes at most four rows full, each touched by the piece |
| Engine.AnimationDoneAsWrittenKeepsInv | main.js:488-492 | the end of the animation as written keeps `Inv` |
| Engine.AnimationDoneKeepsSound | main.js:488-492 | the corrected end of the animation restores `Sound` |
| Engine.Step | main.js:309-323 | corrected event loop: left, right, down and up run `MoveLeft`, `MoveRight`, `MoveDown` and `Rotate`, which only move or turn the piece; the timer runs `Tick`; the end of a running animation is `AnimationDone`, and does nothing when none runs |
| Engine.StepKeepsSound | main.js:309-323 | corrected, every key press, timer tick and end of the animation keeps `Sound` |
| Engine.GameOverIsFinal | tetris_logic.js:431-500 | after the game has ended no event changes the state |
| Engine.StepMonotone | tetris_logic.js:381-388 | no event lowers the score, the level or the line count, and none un-ends the game |
| Engine.Run | main.js:488-502 | corrected, along any run of events `Sound` holds, the score never falls, and an ended game stays as it is |
| Engine.Advance | main.js:309-323 | one event of the corrected loop is `Step`; it keeps `Sound`, never lowers the score, and changes nothing once the game has ended |
| Engine.RunUnfolds | main.js:488-502 | corrected, a run is the first event's `Step` followed by the run of the rest |
| Engine.StepAsWritten | main.js:488-502 | as written, the end of the animation turns it off, replaces the grid by `Compact` of it, scores the cleared rows with `UpdateScore` and leaves the piece and `gameEnd` alone; every other event acts as in the corrected loop |
| Engine.StepAsWrittenKeepsInv | main.js:488-502 | as written, every event keeps `Inv` |
| Engine.StepAsWrittenMonotone | main.js:488-502 | as written, no event lowers the score, the level or the line count, and none un-ends the game |
| Engine.GameOverIsFinalAsWritten | main.js:488-502 | as written, after the game has ended no event changes the state |
| Engine.RunAsWritten | main.js:488-502 | as written, along any run of events `Inv` holds, the score never falls, and an ended game stays as it is |
| Engine.RunAsWrittenUnfolds | main.js:488-502 | as written, a run is the first event's `StepAsWritten` followed by the run of the rest |
| ReleaseGap.AsWrittenReleaseOverlaps | main.js:488-492 | there is a sound state, whose piece fits where it spawned, in which the animation ends, as written, with the live piece overlapping the stack and the game still on |
| ReleaseGap.SquareLocksOver | tetris_logic.js:431-448 | in that situation the next tick locks the piece on top of the occupied cell |
| ReleaseGap.CorrectedReleaseEndsGame | main.js:488-492 | with `checkEnd` added, the same state ends the game |
| RowClear.PadFront | logic.js:136-138 | the list is padded with empty ten-cell rows, added in front, up to twenty rows |
| RowClear.ClearFullRows | logic.js:127-142 | the full rows are removed and counted, the others survive in order, and empty rows are added in front up to twenty; no full row remains |
| RowClear.ClearFullRowsLoop | logic.js:127-142 | the filter-then-unshift loops compute exactly that |
| RowClear.ClearMembers | logic.js:127-142 | a row is in the result exactly when it was a non-full input row, or when it is an empty row and padding was needed |
| RowClear.ClearKeepsOrder | logic.js:127-142 | as written, a surviving row moves down by the full rows below it and back up by the padding added in front |
| RowClear.ClearIdempotent | logic.js:127-142 | a second call changes nothing and clears nothing |
| RowClear.AsWrittenRowsStayUp | logic.js:136-138 | on a twenty-row grid whose bottom row alone is full, no row moves down: the bottom row becomes empty and the rows above keep their indices |
| RowClear.ClearFullRowsFalling | logic.js:127-142 | with the padding on top, the surviving rows sit at the bottom in order and the empty rows above them |
| RowClear.FallingRowsDrop | logic.js:127-142 | corrected, every surviving row falls by exactly the number of full rows below it |
| RowClear.FallingBottomRowCleared | logic.js:127-142 | corrected, on the grid above every row moves down one place and the empty row appears on top |
| RowClear.FallingIdempotent | logic.js:127-142 | corrected, a second call changes nothing and clears nothing |

## Left out

- Rendering, WebGL, shaders, materials, the scoreboard and `shapes.js`/`tetris.js` are not part of this model. The colour table in `initializePieceConfig` (`tetris_logic.js:233-242`) only feeds rendering and is left out.
- Time is left out. The 500 ms drop timer, the 500 ms animation hold and the hold-at-bottom buffer in `main.js` become the events `Timer` and `AnimationOver` of `Engine.Step`. `AnimationOver` has an effect only while `isAnimating`, which is the only time `main.js` starts the hold. Hard drop is not in the source.
- `Math.random` is replaced by roll sequences. A roll sequence passed in is required to be valid (each index below the bag length), which is what `Math.floor(Math.random() * n)` produces.
- Engine.PlaceBlock: requires the piece's cells inside the 14 x 24 array and a queue of valid piece indices. Outside the array the write at `tetris_logic.js:417` would throw a TypeError for an x outside 0..13, where `grid[x]` is `undefined`. A y of 24 or more would lengthen the column array, and a negative y would add a stray property to the column. The invariant `Engine.Inv` includes this and holds along every run, as written (`Engine.RunAsWritten`) and corrected (`Engine.Run`), so only unreachable states are excluded.
- Engine.Run: follows the corrected loop, which calls `checkEnd` at the end of the animation where `main.js:489-491` does not. The loop as written is `Engine.StepAsWritten` and `Engine.RunAsWritten`. For it `Inv`, the score bound and the game-over latch are proved, but `Sound` is not, because it fails there (Findings).
- Engine.Tick: has the same requirement as `PlaceBlock`, for the same reason.
- Scoring.UpdateScore: JavaScript numbers are modelled as unbounded naturals plus NaN. Floating-point rounding of very large scores is not modelled. `scores[n]` for n > 4 is `undefined`, and any arithmetic with it gives NaN, which is what the model keeps.
- The level in the code rises by at most one per `updateScore` call, not to `floor(lines / 10)`; the model follows the code (`Scoring.BigClearLagsLevel`). The code also does not clamp a clear count above four, and the model makes the score NaN there. `Scoring.UpdateKeepsConsistent` and `Engine.PlaceBlockFacts` show that neither case can be reached.
- The border columns 0, 1, 12 and 13 are filled with -1 (empty), as the code does, rather than holding a wall value. The initialisation loop's `j < 2` test also rewrites rows 0 and 1 with -1, but those are ordinary playfield rows that pieces reach. The bounds test in `checkCollision` (2 <= x < 12, 0 <= y < 22) is what keeps pieces off the border columns and off rows 22 and 23.
- `clear_full_rows` only logs its count. `RowClear.ClearFullRows` returns the count instead of logging it. The rest of `logic.js` (piece dropping, merging into the grid, the 10 x 20 cube-unit collision test) is not part of this model.
- `main.js:505` reads `this.tetris.gameend`, a property the engine never sets (it sets `gameEnd`), so the game-over animation never runs. That is a rendering path and is not modelled.
- ReleaseGap.AsWrittenReleaseOverlaps: exhibits the overlapping state as one that satisfies the engine invariant. It does not show a sequence of events from a new game that reaches it.

## Findings

| source | as written | input that shows it | evidently intended | confidence | as-written member | corrected member |
|---|---|---|---|---|---|---|
| main.js:488-492 | when the line-clear animation ends, `clearLines` is called but `checkEnd` is not | a lock fills rows 0 and 1 while cell (6, 21) is taken; `tick` starts the animation without `checkEnd` (`tetris_logic.js:441-443`), and the new O spawns at (6, 19) on free cells; the clear moves (6, 21) down two rows to (6, 19), under the live piece, with `gameEnd` still false; the next tick then locks the piece over it | call `checkEnd` after `clearLines`, as `tick` does on its own clearing path, so the game ends there | not executed | Engine.AnimationDoneAsWritten (counterexample ReleaseGap.AsWrittenReleaseOverlaps, ReleaseGap.SquareLocksOver) | Engine.AnimationDone (Engine.AnimationDoneKeepsSound, ReleaseGap.CorrectedReleaseEndsGame) |
| logic.js:136-138 | the padding rows are `unshift`ed to index 0, which is the bottom row of that grid | a 20-row grid whose row 0 is full and whose row 1 holds one block: afterwards row 0 is empty and the block is still in row 1, floating | add the padding on top (`push`), so the rows above a cleared row fall | not executed | RowClear.ClearFullRows (counterexample RowClear.AsWrittenRowsStayUp) | RowClear.ClearFullRowsFalling (RowClear.FallingRowsDrop, RowClear.FallingBottomRowCleared) |
