# Falling-block game rules engine in Dafny

This project models the rules engine of a Python falling-block ("Tetris")
game, `main.py`. It covers these parts of the game:

- **The piece catalogue.** Seven 4x4 matrices, each with the identifier 1..7
  that locked cells of that piece hold.
- **Rotation by a quarter turn.** The matrix is transposed, then the rows are
  reversed (clockwise) or the row order is reversed (counter-clockwise).
- **The 20x10 grid.** The model covers the collision test, locking a piece
  into a copy of the grid, the in-place line clear and the drop-to-rest search.
- **Wall kicks.** Two offset tables and the first-fit kick search.
- **The rotation handlers.** Their orientation states are "0", "R", "2" and
  "L", and they decide whether a rotation is committed.
- **The 7-bag sequencer and the statistics counters.**
- **The main loop's session.** This is a `Session` class with one method per
  event:
  - hard drop, hold and the two rotations;
  - one frame of delayed auto-shift (DAS) per movement key;
  - the gravity tick.

The model follows the program's shape. Expression-like code becomes
functions and lemmas (`Pieces`, `Kicks.KickSearch`, `Bag.Draw`,
`AutoRepeat.Advance`). Code that changes state becomes methods over arrays
and class fields:
- the grid is an `array<Row>` whose row assignments are the line clear's row
  shifts;
- the session's variables are the fields of `Game.Session`.

Each such method is tied to a function of its inputs or old state, and those
functions carry the lemmas.

Modules, one file each:

| module | file | contents |
|---|---|---|
| `Wrappers` | wrappers.dfy | `Option` |
| `Pieces` | pieces.dfy | kinds, shapes, identifiers, rotation and its round trips, the cell count, the four orientations of a kind |
| `Stats` | stats.dfy | total and per-kind piece counters, line-clear buckets |
| `Board` | board.dfy | grid, `IsValidPosition`, `AddToGrid`, `ClearLines`, `ShadowPosition` |
| `Kicks` | kicks.dfy | orientation states, kick tables, the kick search, the rotation commit |
| `Bag` | bag.dfy | the 7-bag draw and its fairness |
| `AutoRepeat` | das.dfy | the DAS timer of one movement key |
| `Game` | game.dfy | the session class |
| `Findings` | findings.dfy | three places where the code differs from its evident intent |

In the Super Rotation System the orientation states cycle 0→R→2→L. The
handlers at main.py:379 and main.py:393 only pair them up, and the model
follows the code:
- clockwise: 0↔R and L↔2;
- counter-clockwise: 0↔L and R↔2.

`Kicks.Next` encodes these maps literally, and `Kicks.TransitionsPairUp`
states their shape. Every key they produce exists in both tables
(`Kicks.TransitionKeysInTables`).

## Model

| member | source | states |
|---|---|---|
| Pieces.Id | main.py:87-150 | each kind's identifier lies in 1..7 |
| Pieces.IdInjective | main.py:87-150 | distinct kinds have distinct identifiers, so a locked cell determines its kind |
| Pieces.Shape | main.py:87-150 | the base shape of every kind is a 4x4 matrix |
| Pieces.ShapeHasFourCells | main.py:87-150 | every catalogue shape has exactly four occupied cells |
| Pieces.ShapeHasCell | main.py:87-150 | every catalogue shape has an occupied cell |
| Pieces.Rotate | main.py:160-170 | clockwise, result cell (i, j) is input cell (3 - j, i); counter-clockwise, it is (j, 3 - i); the result is 4x4 |
| Pieces.CW | main.py:160-170 | a clockwise turn of a 4x4 matrix is 4x4 |
| Pieces.CCW | main.py:160-170 | a counter-clockwise turn of a 4x4 matrix is 4x4 |
| Pieces.CCWAfterCW | main.py:160-170 | a counter-clockwise turn undoes a clockwise turn |
| Pieces.CWAfterCCW | main.py:160-170 | a clockwise turn undoes a counter-clockwise turn |
| Pieces.FourClockwise | main.py:160-170 | four clockwise turns return the original matrix |
| Pieces.FourCounterClockwise | main.py:160-170 | four counter-clockwise turns return the original matrix |
| Pieces.RotatePreservesCount | main.py:160-170 | rotation in either direction keeps the number of occupied cells |
| Pieces.RotateHasCell | main.py:160-170 | a rotated matrix with an occupied cell still has one |
| Pieces.Turned | main.py:160-170 | any number of clockwise turns of a 4x4 matrix is 4x4 |
| Pieces.ShapeInOrbit | main.py:87-150 | a base shape is one of the four orientations of its kind |
| Pieces.RotateStaysInOrbit | main.py:160-170 | turning an orientation of a kind either way gives an orientation of the same kind |
| Pieces.TurnedCount | main.py:160-170 | repeated turning keeps the occupied-cell count |
| Pieces.OrbitHasFourCells | main.py:87-170 | every orientation of a catalogue shape has four occupied cells |
| Stats.Bumped | main.py:213-221 | a clear of 1..4 rows bumps exactly its own bucket by one; any other count, 0 among them, leaves all four buckets |
| Stats.PieceCounts.Inc | main.py:275 | the drawn kind's counter goes up by one, every other counter is kept, and the sum goes up by one |
| Stats.Statistics.RecordDraw | main.py:273-275 | a draw adds one to the total and to the drawn kind's counter only, keeps the line-clear buckets, and keeps the total equal to the sum of the per-kind counters |
| Stats.Initial | main.py:63-66 | all counters and buckets start at 0, and the total equals the sum of the per-kind counters |
| Board.FitsInBox | main.py:246-258 | a placement the collision test accepts has every occupied cell inside the grid |
| Board.IsValidPosition | main.py:246-258 | true exactly when every occupied cell of the placed matrix lies in [0,20)x[0,10) on a cell holding 0 |
| Board.Locked | main.py:226-232 | locking a piece into a well-formed grid gives a well-formed grid |
| Board.AddToGrid | main.py:226-232 | the result is a fresh grid equal to the input except that cells under occupied matrix cells hold the piece's identifier; the input grid is not changed |
| Board.RemoveRow | main.py:209-211 | removing row i moves rows 0..i-1 down by one, puts an empty row on top, and keeps the rows below i |
| Board.ClearLines | main.py:204-223 | the grid becomes the full-row count's worth of empty rows followed by the non-full rows in their original order; the count returned is the number of rows that were full on entry |
| Board.KeptRows | main.py:204-211 | the kept rows come from the input and are not full, and kept plus cleared rows make up all rows |
| Board.ClearedIsBoard | main.py:204-211 | a line clear keeps 20 well-formed rows and leaves no full row |
| Board.FullCountIsFullRows | main.py:206-208 | the count is the number of indices of full rows |
| Board.ClearAllFull | main.py:204-211 | on a grid of full rows every row is cleared and all rows become empty |
| Board.ClearAllEmpty | main.py:204-211 | on a grid of empty rows nothing is cleared and the grid is unchanged |
| Board.FullCountWithinWindow | main.py:206-208 | when every full row lies in a four-row window, at most as many rows are full as the window shares with the grid |
| Board.LockClearsAtMostFour | main.py:226-232 | locking one piece into a grid without full rows makes at most four full rows, so every clear after a lock falls into one of the four buckets or clears nothing |
| Board.ShadowPosition | main.py:260-264 | the column is kept, the row never decreases, every row passed fits, the row below the result does not fit, a piece that fits where it starts fits at the result, and the loop terminates |
| Kicks.TransitionKeysInTables | main.py:180-201 | every key a rotation handler builds is in both tables, with five offsets, the first of which is (0, 0) |
| Kicks.TransitionsPairUp | main.py:379-393 | rotating twice the same way gives back the first state, and the two directions never lead to the same state |
| Kicks.KickSearchNoneIffNoFit | main.py:234-244 | the kick search fails exactly when no offset of the list has its box corner inside the grid and a valid placement there |
| Kicks.KickSearchFirstFit | main.py:234-244 | a position the search finds is that of the first offset, in list order, whose corner is inside the grid and whose placement is valid |
| Kicks.SearchOffsets | main.py:234-244 | the offset loop returns exactly the position the kick search defines |
| Kicks.ApplyWallKick | main.py:234-244 | the wall kick returns the first-fit position for the piece's table and the transition key |
| Kicks.CommitSpec | main.py:382-390 | a committed rotation holds the rotated matrix and the next state where it fits; it stays at the current position when the rotated matrix is valid there, else it goes to the first fitting offset; it is rejected exactly when neither works |
| Kicks.RotationOutcomeSpec | main.py:377-404 | the same four facts for a rotation handler, with the offsets of the piece's table for the transition key |
| Kicks.TurnPiece | main.py:377-390 | the handler's result is the committed placement, or the old one when rejected; a valid piece stays a 4x4 matrix with an occupied cell inside the grid |
| Kicks.TurnKeepsPiece | main.py:377-404 | a rotation request keeps a 4x4 matrix and an occupied cell, keeps the matrix an orientation of its kind, and a committed placement fits |
| Kicks.TurnChangesStateIffCommitted | main.py:377-390 | the orientation state changes exactly when the rotation is committed; a rejected rotation changes nothing |
| Bag.Refilled | main.py:266-269 | the bag a draw picks from is never empty |
| Bag.AllKindsOnce | main.py:269 | the refill holds every kind exactly once |
| Bag.RemoveFirst | main.py:272 | removing one occurrence shortens the list by one |
| Bag.RemoveFirstMultiset | main.py:272 | removing takes exactly one occurrence of the element out of the list's multiset |
| Bag.RemoveFirstCutsAtFirst | main.py:272 | the occurrence removed is the first one |
| Bag.Pick | main.py:271 | the chosen index lies in the bag, and every index can be chosen |
| Bag.Draw | main.py:266-277 | the drawn kind was in the (possibly refilled) bag, and the bag loses one element |
| Bag.DrawMultiset | main.py:266-277 | the drawn kind and the bag left behind make up exactly the refilled bag |
| Bag.EveryElementDrawable | main.py:271 | any element of the bag is drawn by some choice |
| Bag.DrawStaysWithinRefill | main.py:266-277 | starting from a bag holding each kind at most once, every draw keeps that property |
| Bag.DrawMany | main.py:266-277 | a run of draws draws one kind per choice |
| Bag.DrawWithinBag | main.py:266-277 | up to as many draws as the bag holds never refill it: the kinds drawn and the bag left make up the original bag |
| Bag.RoundsFrom | main.py:266-277 | a run of the bag's size plus 7n draws empties the bag and draws each kind as often as the bag held it plus n |
| Bag.SevenDrawsFromEmpty | main.py:266-277 | seven draws from an empty bag give every kind exactly once and leave the bag empty |
| Bag.BagAlignedFairness | main.py:266-277 | 7n draws from an empty bag give every kind exactly n times and leave the bag empty |
| AutoRepeat.Advance | main.py:410-424 | a released key deactivates the timer; the first held frame moves exactly when the move fits and then starts the timer; later held frames move exactly when the initial delay and the repeat rate have passed and the move fits |
| AutoRepeat.HeldSpacing | main.py:410-424 | while a key stays held, the first move starts the timer, the second comes at least the initial delay after the first, and every later move at least the repeat rate after the one before |
| Game.Timers.Set | main.py:410-456 | updating one key's timer keeps the other two |
| Game.Session.constructor | main.py:302-331 | the session starts on an empty grid with the given current and next kinds at the spawn position, state 0, no hold, score 0, an empty bag, idle timers and zero statistics |
| Game.Session.DrawNext | main.py:266-277 | the session's bag and statistics advance exactly as one draw defines, and each kind stays in the bag at most once |
| Game.Session.Lock | main.py:350-353 | the grid becomes the locked grid with full rows cleared, the score grows by the count, clears are at most four, and exactly that clear's bucket is bumped |
| Game.Session.BringIn | main.py:355-359 | the given kind becomes current with its base shape at the spawn position (0, 3) and the session stays valid; Spawn and Hold bring their incoming piece in through it |
| Game.Session.Spawn | main.py:355-362 | the next kind becomes current with its base shape at (0, 3), a new next kind is drawn and counted, the hold is available again, and the game is over exactly when the new piece does not fit |
| Game.Session.LockAndSpawn | main.py:350-362 | the lock and the spawn in sequence, stated against the state before them |
| Game.Session.HardDrop | main.py:345-362 | the piece drops to the row where it rests in its column, then locks and spawns as above |
| Game.Session.Hold | main.py:364-375 | a used hold changes nothing; otherwise the current kind goes to the hold slot, and either the next kind comes in with a new draw (empty slot) or the held kind comes back with bag and statistics unchanged; the new piece is its base shape at the spawn position |
| Game.Session.Rotate | main.py:377-404 | the new placement and orientation state are the rotation handler's decision; a rejected rotation changes nothing |
| Game.Session.AutoShift | main.py:410-456 | the key's DAS timer advances one frame, the piece moves one cell exactly when the timer says so and the move fits, and the other timers are kept |
| Game.Session.Gravity | main.py:459-477 | before the fall delay nothing happens; after it the piece moves down a row if it fits there and otherwise locks and spawns; either way the fall clock restarts |
| Findings.ClockwiseAsWritten | main.py:391-404 | as written, the clockwise handler sets the next state even when the rotation is rejected; matrix and position are committed as by Kicks.Turn, with the table of the piece's kind, so this member isolates the main.py:404 defect from the table selection at main.py:235 |
| Findings.ClockwiseAsWrittenDiffers | main.py:391-404 | the as-written handler agrees with the corrected one exactly when the rotation is committed |
| Findings.ClockwiseRejectedExample | main.py:391-404 | a horizontal I piece resting on a ledge cannot rotate clockwise, yet as written its state becomes R |
| Findings.ClockwiseRejectedUnderSharedTable | main.py:235-244 | the same rotation is also rejected with the shared table the code selects for every kind |
| Findings.KickTableAsWritten | main.py:235 | as written, every kind gets the shared table |
| Findings.KickTableAsWrittenMissesI | main.py:235 | as written, the I piece's "0->R" kicks start (0, 0), (-1, 0) instead of (0, 0), (-2, 0) |
| Findings.HoldAsWritten | main.py:364-375 | as written, the first hold does not refresh the next shape |
| Findings.SpawnAsWritten | main.py:355-358 | as written, a spawn takes the current shape from the next slot's shape |
| Findings.SpawnKeepsAgreement | main.py:355-375 | spawns and swapping holds keep keys and shapes in agreement |
| Findings.StaleNextShapeExample | main.py:364-375 | after a first hold and a spawn, the current key is O while the current matrix is the I matrix |

## Left out

- Window, font and pygame set-up, event and key polling, drawing, and the
  colour table: presentation. The session gets one method call per event
  instead.
- The tetrominoes-per-second display: floating-point division over
  wall-clock time.
- `random.choice`: every draw takes a `choice` parameter. The element at
  index `choice % |bag|` is drawn, so every element is reachable
  (`Bag.EveryElementDrawable`).
- The clocks: `now` is an integer parameter in milliseconds.
- `lock_tetromino`: it is never called, and its body would fail on the
  unbound `score`. The inline lock paths of hard drop and gravity are
  modelled instead.
- The module-level test expressions: they have no effect.
- Game over: the source leaves the main loop after the frame in which
  `running` becomes false. The model keeps a `gameOver` flag, and every
  event method does nothing once it is set.
- The first current and next pieces: the constructor takes them as
  parameters. As in the source, they bypass the bag and the statistics.
- Game.Session.Hold: like the source, it does not check that the incoming
  piece fits at the spawn position.
- Game.Session.Rotate: does not state that the current matrix stays one of
  the four orientations of its kind. That is proved on values by
  `Kicks.TurnKeepsPiece` and `Pieces.RotateStaysInOrbit`; the session
  invariant carries only "4x4 with an occupied cell, inside the grid".
- Game.Session.HardDrop: the hard-drop loop (main.py:347-348) is the same
  loop as `calculate_shadow_position`, so it is modelled with
  `Board.ShadowPosition`.
- negative indices: numpy counts them from the end, but no index written or
  read can be negative:
  - `is_valid_position` rejects out-of-grid cells before reading;
  - the session invariant keeps every occupied cell of the current piece
    inside the grid.
- Board.AddToGrid: requires every occupied cell to lie inside the grid
  (`InBox`). The session invariant guarantees this, so the wrap-around or
  index error the source would meet otherwise is not modelled.
- Board.ShadowPosition: requires the matrix to have an occupied cell. For
  an empty matrix the source loop would never end, and every catalogue
  shape has one.
- Board.ClearLines: returns the count only. The line-clear bucket is bumped
  by `Game.Session.Lock` from that count, as `clear_lines` does from its
  own count at main.py:213-221.
- The orientation state: like the source, it is not reset on spawn or
  hold.

## Findings

| source | as written | input that shows it | evidently intended | confidence | as-written member | corrected member |
|---|---|---|---|---|---|---|
| main.py:404 | the clockwise handler assigns `rotation_state = new_rotation_state` after the kick attempt, also when no offset fits | a horizontal I at box corner (18, 0) with rows 18 and 19 holding a block at (18, 2) and cells (19, 4..9): the rotation is rejected, but the state becomes R while the matrix stays horizontal | the state changes only when the rotation is committed, as in the counter-clockwise handler | not executed | Findings.ClockwiseAsWritten, Findings.ClockwiseRejectedExample, Findings.ClockwiseRejectedUnderSharedTable | Kicks.Turn, Kicks.TurnChangesStateIffCommitted, Game.Session.Rotate |
| main.py:235 | the table is chosen with `tetromino == "I"`, which compares the rotated NumPy matrix with a string: with NumPy before 1.25 this is a scalar `False`, so the shared table is always chosen; with NumPy 1.25 and later the comparison gives an all-`False` array whose use as a condition raises `ValueError`, already at the call at main.py:296. Either way the I table is never used; the model follows the first reading | the I piece rotating 0->R: as written its second offset is (-1, 0) from the shared table instead of (-2, 0) | the table is chosen by the piece's key (`current_tetromino_key == "I"`) | not executed | Findings.KickTableAsWritten, Findings.KickTableAsWrittenMissesI | Kicks.KickTable, Kicks.RotationOutcomeSpec |
| main.py:369-370 | the first hold refreshes `next_tetromino_key` but not `next_tetromino`, and the spawn at main.py:355-356 takes the key and the shape from those two | current T, next I, empty hold slot; a hold that draws O, then a spawn: the current key is O but the current matrix is the I matrix | the spawned shape is the shape of the spawned key | not executed | Findings.HoldAsWritten, Findings.SpawnAsWritten, Findings.StaleNextShapeExample | Game.Session.Hold, Game.Session.Spawn |
