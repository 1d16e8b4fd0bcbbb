# A falling-block engine, modelled in Dafny

This project models the engine of a small Python falling-block game ("tetris")
and proves properties of it. The game ships two variants of its engine:

- an older engine, `tetris/tetris.py`. It stamps and erases the falling piece
  on a plain `Grid` from `tetris/__init__.py`, and it moves, kicks, rotates,
  locks, clears rows, scores and counts holes;
- a newer engine, `tetris/game.py`. It keeps score, level and lines, gates
  the player's commands on pause and game over, and drives a grid through
  calls that no shown file defines.

Around the engines sit the pieces (`tetris/shapes.py`, `tetris/blocks.py`)
and a richer `Grid` with a classified collision test (`tetris/grid.py`).

| Dafny module (file) | models |
|---|---|
| `Wrappers` (wrappers.dfy) | the `Option` type used for error paths and `None` results |
| `Matrix` (matrix.dfy) | boards as sequences of rows: zero boards, cell update, `delete_row`, full rows and the result of clearing them |
| `Package` (package.dfy) | `tetris/__init__.py`: `transpose`, the quarter-turn both piece classes perform, and the plain `Grid` class |
| `Footprint` (footprint.dfy) | writing a piece's cells on a board and clearing them (`set_block` / `remove_block` in both engines) |
| `Shapes` (shapes.dfy) | `tetris/shapes.py`: the seven shape tables, colouring, and the `Shape` class |
| `Blocks` (blocks.dfy) | `tetris/blocks.py`: `Tetrimino` and the seven-piece `Bag` |
| `Board` (board.dfy) | `tetris/grid.py`: the `Collision` kinds and the `Grid` class with its collision test |
| `Classic` (classic.dfy) | `tetris/tetris.py`: the older engine as the class `Classic.Tetris` |
| `Game` (game.dfy) | `tetris/game.py`: the newer engine as the class `Game.Tetris` |

Objects whose fields the source updates are Dafny classes: the grids,
`Shape`, `Tetrimino`, `Bag` and both engines. Their methods carry
`modifies` clauses and state the whole new state. Loops become `for` or
`while` loops with invariants. The loops are the cell-writing loops of
`set_block`, `remove_block` and `set_shape_color`, the collision scans, the
rotation loops, the row-clearing scans, the kick loops, `calc_holes`, and
the `move_bottom` / `drop` loops. Each such method is proved against a
function or predicate that specifies its result.

Some methods are split into steps that the source writes inline, so that
each proof stays small: `Lift`, `Put`, `Fall`, `Probe`, `Settle`, `Lock`,
`Spawn`, `FallToRest`, `FallOnce`, `TurnLifted` and `Kick` in
`Classic.Tetris`, `QuarterTurn` in `Shape` and `Tetrimino`, and
`DeleteFullRows` and `MoveDownAll` in `Game.Tetris`.

The older engine's class invariant `Classic.Tetris.Valid` keeps a ghost
copy, `rest`, of the board without the falling piece. The invariant says:

- `rest` has no full row;
- the piece sits on free cells of `rest`;
- the board is `rest` with the piece stamped on it.

From this it follows that a locking piece completes at most four rows, so
the score table is never read past its end.

## Model

| member | source | states |
|---|---|---|
| `Matrix.Zeros` | tetris/__init__.py:21-25 | a `rows` by `cols` board whose every cell is 0 |
| `Matrix.Updated` | tetris/__init__.py:43-45 | writing one cell: that cell holds the value, every other cell and every row length are unchanged |
| `Matrix.DeleteRow` | tetris/__init__.py:17-19 | deleting row `r`: same row count, row 0 is all zeros, new rows `1..r` are old rows `0..r-1`, rows after `r` unchanged |
| `Matrix.DeleteRowIsGrid` | tetris/grid.py:25-27 | deleting a row keeps a `rows` by `cols` board that size |
| `Matrix.SurvivorsCount` | tetris/tetris.py:179-185 | the full rows plus the surviving rows are all the rows; every survivor is a non-full row of the board |
| `Matrix.ClearedFacts` | tetris/tetris.py:179-185 | the cleared board is as many zero rows as there were full rows, over the non-full rows in their old order; it keeps its size, has no full row, clearing again changes nothing, and a board without full rows is left alone |
| `Matrix.ClearStep` | tetris/tetris.py:182-185 | one step of the top-to-bottom scan: after rows `0..i-1` are processed, row `i` of the current board is still the original row `i`, and deleting it if full (or keeping it) processes row `i` as well |
| `Package.Transpose` | tetris/__init__.py:4-5 | an r by c matrix (r > 0) becomes c by r with `t[j][i] == m[i][j]`; the empty matrix stays empty |
| `Package.TransposeTwice` | tetris/__init__.py:4-5 | transposing twice gives back any non-empty matrix whose rows are non-empty |
| `Package.TransposeLosesEmptyRows` | tetris/__init__.py:4-5 | `zip` of empty rows is empty, so transposing twice does not give back `[[], []]` |
| `Package.TransposeCells` | tetris/__init__.py:4-5 | transposing keeps the multiset of cell values |
| `Package.Reverse` | tetris/shapes.py:56 | `[::-1]`: same length, element `k` is element `n-1-k` |
| `Package.Turn` | tetris/shapes.py:52-56 | one clockwise quarter-turn (transpose, then reverse each row) of an r by c matrix is c by r |
| `Package.TurnAt` | tetris/shapes.py:52-56 | after a quarter-turn, `new[i][j] == old[n-1-j][i]` |
| `Package.TurnIsReversedTranspose` | tetris/shapes.py:54-56 | the quarter-turn is exactly "reverse each row of the transpose" |
| `Package.TurnSquare` | tetris/shapes.py:52-56 | on an n by n square the turn keeps the size and sends cell `(i, j)` to `(j, n-1-i)` |
| `Package.HalfTurn` | tetris/shapes.py:52-56 | two quarter-turns send cell `(i, j)` of an r by c matrix to `(r-1-i, c-1-j)` |
| `Package.HalfTurnsCancel` | tetris/shapes.py:52-56 | two half-turns give back the matrix |
| `Package.FourTurns` | tetris/shapes.py:52-56 | `rotate(4)` is the identity |
| `Package.ThreeTurnsUndoOne` | tetris/tetris.py:170-172 | three more turns undo one turn, which is what the rejected rotation relies on |
| `Package.TurnCells` | tetris/shapes.py:52-56 | a quarter-turn keeps the multiset of cell values |
| `Package.TurnsKeep` | tetris/shapes.py:52-56 | any number of turns keeps an n by n square n by n, with the same multiset of cells |
| `Package.Grid.constructor` | tetris/__init__.py:9-15 | a `rows` by `cols` board of zeros, with `lastRow == rows-1` and `lastCol == cols-1` |
| `Package.Grid.Create` | tetris/__init__.py:21-25 | appending `rows` zero rows one at a time yields the zero board |
| `Package.Grid.DeleteRow` | tetris/__init__.py:17-19 | the board becomes `Matrix.DeleteRow` of the old board and keeps its size |
| `Package.Grid.Clear` | tetris/__init__.py:27-28 | the board becomes all zeros |
| `Package.Grid.Row` | tetris/__init__.py:36-41 | with a single index, `__getitem__` returns the whole row: `cols` cells, each the one a pair index reads |
| `Package.Grid.Set` | tetris/__init__.py:43-45 | `__setitem__` changes exactly one cell and nothing else |
| `Footprint.PaintAt` | tetris/grid.py:32-42 | after the cell loop has passed shape cell `(dr, dc)`, a board cell holds the piece's tag (or 0 when erasing) exactly where a non-zero shape cell before `(dr, dc)` landed, and its old value everywhere else |
| `Footprint.StampStamped` | tetris/grid.py:32-36 | after `set_block` the board holds the piece's tag at every cell of its footprint |
| `Footprint.StampThenEraseRestores` | tetris/grid.py:32-42 | if the piece does not collide, `set_block` then `remove_block` gives back the board exactly |
| `Footprint.EraseThenStampRestores` | tetris/tetris.py:44-59 | on a board where the piece is stamped, `remove_block` then `set_block` gives back the board exactly |
| `Footprint.EraseStamp` | tetris/grid.py:32-42 | erasing after stamping is the same as erasing alone |
| `Footprint.StampErase` | tetris/grid.py:32-42 | stamping after erasing is the same as stamping alone |
| `Footprint.FreeAfterErase` | tetris/grid.py:38-42 | after `remove_block` every footprint cell is empty |
| `Footprint.EraseFree` | tetris/grid.py:38-42 | removing a piece from cells that are already empty changes nothing |
| `Footprint.EraseKeepsNoFullRow` | tetris/tetris.py:52-59 | erasing a piece never completes a row |
| `Footprint.StampFullRows` | tetris/tetris.py:109-116 | stamping a piece on a board without full rows completes rows only inside the piece's own rows, so at most its side many |
| `Shapes.TableSquare` | tetris/shapes.py:59-112 | every shape table is a square of side 2 (O), 4 (I) or 3 (the rest) |
| `Shapes.TableCells` | tetris/shapes.py:59-112 | every shape table has exactly four non-zero cells, and all its other cells are 0 |
| `Shapes.ColoredCells` | tetris/shapes.py:31-35 | colouring keeps the size, sets every non-zero cell to the colour, leaves zero cells 0, and keeps which cells are occupied |
| `Shapes.ColoredIdempotent` | tetris/shapes.py:31-35 | colouring twice with the same colour is colouring once |
| `Shapes.ColoredTurn` | tetris/shapes.py:52-56 | colouring and turning commute |
| `Shapes.ReversedTransposeIsTurn` | tetris/shapes.py:54-56 | the rows the loop builds, each a reversed row of the transpose, make up the quarter-turn |
| `Shapes.Shape.constructor` | tetris/shapes.py:18-21 | a new shape keeps its colour and holds its table coloured in it |
| `Shapes.Shape.SetShapeColor` | tetris/shapes.py:31-35 | the cell loop leaves the shape coloured, colour and position unchanged |
| `Shapes.Shape.SetPos` | tetris/shapes.py:37-38 | only the position changes, to the one given |
| `Shapes.Shape.MoveLeft` | tetris/shapes.py:40-41 | the column goes down by `times`; row, shape and colour unchanged |
| `Shapes.Shape.MoveRight` | tetris/shapes.py:43-44 | the column goes up by `times`; row, shape and colour unchanged |
| `Shapes.Shape.MoveUp` | tetris/shapes.py:46-47 | the row goes down by one; column, shape and colour unchanged |
| `Shapes.Shape.MoveDown` | tetris/shapes.py:49-50 | the row goes up by one; column, shape and colour unchanged |
| `Shapes.Shape.Rotate` | tetris/shapes.py:52-56 | `rotate(times)` leaves the shape turned `times` quarter-turns; position and colour unchanged |
| `Shapes.Shape.QuarterTurn` | tetris/shapes.py:54-56 | one pass of the rotation loop is one quarter-turn |
| `Blocks.KindOf` | tetris/blocks.py:37-61 | an id of 1..7 names the kind whose id it is |
| `Blocks.IdsDistinct` | tetris/blocks.py:37-61 | every kind's id is in 1..7 and names that kind back, so the seven ids are distinct |
| `Blocks.BagShapeIsTaggedTable` | tetris/blocks.py:39-59 | each matrix `add_blocks` writes out is the shape table of its kind with its cells set to the id, and is square |
| `Blocks.SevenIds` | tetris/blocks.py:37-61 | the seven pieces in `add_blocks`' order carry the ids 1, 2, ..., 7 |
| `Blocks.ShuffledPristine` | tetris/blocks.py:63-65 | any permutation of the seven new pieces still holds seven valid pieces, each exactly as `add_blocks` makes the kind its id names |
| `Blocks.Tetrimino.constructor` | tetris/blocks.py:6-14 | height and width come from the shape; `can_move` holds; row and column are 0 |
| `Blocks.Tetrimino.Move` | tetris/blocks.py:16-18 | `col` grows by the first argument and `row` by the second; nothing else changes |
| `Blocks.Tetrimino.Rotate` | tetris/blocks.py:20-24 | on a square piece, `rotate(times)` turns the shape `times` quarter-turns and keeps its cells; position and `can_move` unchanged |
| `Blocks.Tetrimino.QuarterTurn` | tetris/blocks.py:22-24 | one pass of the loop is one quarter-turn |
| `Blocks.Bag.constructor` | tetris/blocks.py:34-35 | a new bag is empty |
| `Blocks.Bag.AddBlocks` | tetris/blocks.py:37-61 | seven new, distinct, valid pieces, the one at index `i` exactly the piece of the `i`-th kind |
| `Blocks.Bag.Shuffle` | tetris/blocks.py:63-65 | the bag becomes a permutation of itself: same pieces, same ids, distinct pieces stay distinct, no piece changes |
| `Blocks.Bag.Fill` | tetris/blocks.py:67-70 | seven new distinct pieces whose ids are 1..7 each exactly once, each piece exactly as `add_blocks` makes it |
| `Blocks.Bag.Empty` | tetris/blocks.py:72-73 | the bag is empty |
| `Board.Value` | tetris/grid.py:4-8 | the collision kinds carry the values 1 to 4 |
| `Board.CellCollision` | tetris/grid.py:50-58 | a shape cell collides at no kind exactly when it lands in a column of the board, at or above the last row, on an empty cell (a negative row reads from the bottom, as Python's index does) |
| `Board.NoCollisionIsFree` | tetris/grid.py:44-59 | at a row of 0 or more, `collides` is false exactly when every non-zero shape cell lands on an empty board cell |
| `Board.HitHere` | tetris/grid.py:48-58 | the first colliding cell in row-major shape order decides the result |
| `Board.FirstHitUnique` | tetris/grid.py:48-58 | the collision result is a single kind: two first hits agree |
| `Board.WallBeforeBlock` | tetris/grid.py:51-58 | a cell past the left wall reports `LEFT_WALL` even though a later cell lands on a block |
| `Board.NegativeRowWraps` | tetris/grid.py:51-57 | without a `row < 0` test, a piece above the board reads cells from the bottom: it can collide with blocks there, or miss them |
| `Board.Grid.constructor` | tetris/grid.py:12-17 | a `rows` by `cols` board of zeros, with the last indices derived |
| `Board.Grid.Create` | tetris/grid.py:19-20 | a `rows` by `cols` board whose every cell is 0 |
| `Board.Grid.Reset` | tetris/grid.py:29-30 | the board becomes all zeros |
| `Board.Grid.Row` | tetris/grid.py:61-62 | `grid[row]` is the row itself: `cols` cells, each the cell `get` reads |
| `Board.Grid.Set` | tetris/grid.py:64-66 | exactly one cell changes |
| `Board.Grid.DeleteRow` | tetris/grid.py:25-27 | the row is popped and a zero row inserted on top: `Matrix.DeleteRow`, size kept |
| `Board.Grid.SetBlock` | tetris/grid.py:32-36 | the board becomes the old one with the piece's non-zero cells written at its position, and no other cell changed |
| `Board.Grid.RemoveBlock` | tetris/grid.py:38-42 | the board becomes the old one with exactly the piece's footprint set to 0 |
| `Board.Grid.Collides` | tetris/grid.py:44-59 | no collision exactly when every piece cell lands on the board on an empty cell; otherwise the kind of the first offending cell in row-major order, with left wall, right wall, floor and block tested in that order |
| `Classic.PointsAsWritten` | tetris/tetris.py:186-188 | as written, the score step reads `POINTS[n]`: defined only for `n < 4`, and then that entry |
| `Classic.PointsAsWrittenOffByOne` | tetris/tetris.py:12-17 | as written, one line pays 100 rather than the commented 40, and four lines are out of range |
| `Classic.Points` | tetris/tetris.py:12-17 | corrected: one line at once pays 40, two 100, three 300 and four 1200, as the comment lists |
| `Classic.PointsAsCommented` | tetris/tetris.py:12-17 | with the corrected lookup, more lines at once pay more per line |
| `Classic.LockScore` | tetris/tetris.py:186-188 | corrected: the score never falls; it changes exactly when a line was cleared, and then by between 40 and 1200 times `level + 1` |
| `Classic.SpawnFacts` | tetris/tetris.py:61-70 | a new piece is a square of side 2 to 4 that has a cell, with the cells of its coloured table whatever the number of turns |
| `Classic.SpawnInside` | tetris/tetris.py:66 | on a board at least 4 wide, the column `floor(cols/2) - ceil(n/2)` keeps the piece's box inside the board, with the right margin 0 to 2 columns wider than the left |
| `Classic.SpawnOnto` | tetris/tetris.py:117-120 | a new piece stamped without a collision test on a board without full rows: the board without it has no full row, and the piece sits on free cells of it |
| `Classic.KickRight` | tetris/tetris.py:157-161 | the right nudges stop at the first column where the piece is free, or after `cols` steps |
| `Classic.KickLeft` | tetris/tetris.py:164-168 | the left nudges stop at the first column where the piece is free, or after `cols` steps |
| `Classic.Kicked` | tetris/tetris.py:154-168 | a turned piece that is already free is not nudged |
| `Classic.RotateAsWritten` | tetris/tetris.py:147-173 | as written: a rejected turn is undone by three more turns, but the column the nudges reached is kept |
| `Classic.Rotated` | tetris/tetris.py:147-173 | corrected: a free piece stays free after `rotate`; either it is turned (and perhaps nudged), or shape and column are as before |
| `Classic.RotateAsWrittenLandsOnBlocks` | tetris/tetris.py:157-173 | on a concrete board, the as-written rotation leaves an upright I piece, whose turn is rejected, four columns away on occupied cells; the corrected one leaves it where it was |
| `Classic.ColumnHolesAreHolesBelow` | tetris/tetris.py:193-197 | per column, the zeros after the first non-zero cell are exactly the zero cells that have a non-zero cell somewhere above them |
| `Classic.EmptyBoardNoHoles` | tetris/tetris.py:190-198 | an empty board has no holes |
| `Classic.DropDistance` | tetris/tetris.py:175-177 | the piece can fall through each of the next `d` rows, and not through the one after |
| `Classic.DropDistanceIs` | tetris/tetris.py:175-177 | any `d` with that property is the drop distance |
| `Classic.Tetris.constructor` | tetris/tetris.py:19-28 | no piece, all counters zero, paused, not over |
| `Classic.Tetris.SetBlock` | tetris/tetris.py:44-50 | the piece is stamped at its position |
| `Classic.Tetris.RemoveBlock` | tetris/tetris.py:52-59 | without a piece nothing changes; otherwise exactly its footprint is cleared |
| `Classic.Tetris.NextBlock` | tetris/tetris.py:61-70 | a new piece of the chosen kind, turned the chosen number of times, in its colour, at row 0 and the centred column |
| `Classic.Tetris.Collides` | tetris/tetris.py:72-86 | true exactly when some piece cell lands off the board or on an occupied cell |
| `Classic.Tetris.PlayPause` | tetris/tetris.py:88-92 | unless the game is over only `pause` flips; after game over the game resets |
| `Classic.Tetris.ResetGame` | tetris/tetris.py:94-100 | empty board, no piece, score and lines zero, not paused, not over; level and holes kept |
| `Classic.Tetris.CleanCompleteRows` | tetris/tetris.py:179-188 | exactly the full rows are removed, and lines and score grow by the count of those rows and its corrected points |
| `Classic.Tetris.DeleteFullRows` | tetris/tetris.py:181-185 | the scan returns the number of full rows and leaves the cleared board |
| `Classic.Tetris.CalcHoles` | tetris/tetris.py:190-198 | the result is the sum over columns of the holes below each column's top cell |
| `Classic.Tetris.Run` | tetris/tetris.py:30-36 | paused: nothing changes; with no piece, a new one is spawned and stamped; otherwise it is one `move_down` |
| `Classic.Tetris.MoveLeft` | tetris/tetris.py:127-135 | paused or no piece: nothing changes; otherwise the piece moves `times` columns left if it is free there, and else board and piece are exactly as before |
| `Classic.Tetris.MoveRight` | tetris/tetris.py:137-145 | as `MoveLeft`, to the right |
| `Classic.Tetris.MoveDown` | tetris/tetris.py:102-125 | paused or no piece: `None`, nothing changes. Free below: the piece falls one row, scores 1, true. Blocked: it locks in place, full rows are cleared and scored, game over if it locked at a row of at most 0, holes recounted, a new piece stamped, false |
| `Classic.Tetris.Lock` | tetris/tetris.py:110-118 | the locked board loses its full rows; score, lines, game over and holes are updated from it; no piece remains |
| `Classic.Tetris.Spawn` | tetris/tetris.py:119-120 | the new piece is stamped at the top centre over the board, and the invariant holds again |
| `Classic.Tetris.MoveBottom` | tetris/tetris.py:175-177 | the piece falls its full drop distance, scoring one per row, then locks as in `MoveDown` |
| `Classic.Tetris.Rotate` | tetris/tetris.py:147-173 | corrected: the piece ends turned and nudged if that is free, and otherwise with shape and column as before; the board is the piece stamped there |
| `Classic.Tetris.NudgeRight` | tetris/tetris.py:157-161 | the nudge loop moves the piece right to the column `KickRight` names |
| `Classic.Tetris.NudgeLeft` | tetris/tetris.py:164-168 | the nudge loop moves the piece left to the column `KickLeft` names |
| `Game.SpeedAsWritten` | tetris/game.py:33-50 | as written: no delay gives 0, levels 0 to 9 read the table, level 10 gives 83 ms, 11-13 give 67, 14-16 give 50, 17-19 give 33, 20-28 give `None`, 29 and up give 17 |
| `Game.Speed` | tetris/game.py:33-50 | corrected: 0 exactly without delay, the table for levels 0 to 9, then 83 ms for 10-12, 67 for 13-15, 50 for 16-18, 33 for 19-28 and 17 from 29 on |
| `Game.SpeedNonIncreasing` | tetris/game.py:41-50 | with the corrected bands, the delay never grows with the level |
| `Game.SpeedAsWrittenAgrees` | tetris/game.py:41-50 | the written and intended lookups agree exactly without delay, up to level 10, at levels 13, 16 and 19, and from 29 on |
| `Game.SpeedAsWrittenMisses` | tetris/game.py:41-50 | level 20 gets no delay at all as written, and level 11 already gets the next band's delay |
| `Game.AfterClear` | tetris/game.py:92-97 | no row cleared: nothing changes. Otherwise the counters only grow, lines grow by the count, and the level rises by one exactly when the new lines reach `10 * (level + 1)` |
| `Game.AfterClearExamples` | tetris/game.py:92-97 | two rows pay 100 at level 0 and 200 at level 1; lines going from 9 to 10 at level 0 reach level 1 |
| `Game.AfterClearKeepsLevel` | tetris/game.py:92-97 | if the level is the line count divided by ten, it still is after clearing up to four rows |
| `Game.Tetris.constructor` | tetris/game.py:20-31 | no score, level 0, no lines, not paused, not over, not quitting |
| `Game.Tetris.GameSpeed` | tetris/game.py:33-50 | with the corrected bands: 0 exactly without delay, and otherwise between 17 and 799 ms |
| `Game.Tetris.Step` | tetris/game.py:58-65 | paused or over: no call, nothing changes. The block can move: one `move(0, 1)` and nothing else. Otherwise full rows are cleared and scored, the game is over exactly when the block's row is at most 0, and `create_block` is called only if it is not |
| `Game.Tetris.PlayPause` | tetris/game.py:69-73 | unless the game is over only `pause` flips; after game over everything resets |
| `Game.Tetris.ResetGame` | tetris/game.py:75-82 | empty board, score, level and lines zero, not paused, not over |
| `Game.Tetris.ClearCompleteRows` | tetris/game.py:84-99 | returns the number of full rows, removes exactly those, and updates the counters by `AfterClear`, keeping the level the line count divided by ten |
| `Game.Tetris.DeleteFullRows` | tetris/game.py:86-90 | the scan returns the number of full rows and leaves the cleared board |
| `Game.Tetris.IsGameOver` | tetris/game.py:101-104 | over exactly when it was over already, or the block cannot move and its row is at most 0: once over, it stays over |
| `Game.Tetris.MoveLeft` | tetris/game.py:106-108 | running: one `move(-1, 0)`, whose answer is returned; otherwise `None` and no call |
| `Game.Tetris.MoveRight` | tetris/game.py:110-112 | running: one `move(1, 0)`, whose answer is returned; otherwise `None` and no call |
| `Game.Tetris.MoveDown` | tetris/game.py:114-119 | running: one `move(0, 1)`, whose answer is returned, and one point exactly when it moved; otherwise `None`, no call, no point |
| `Game.Tetris.Rotate` | tetris/game.py:121-123 | running: one `rotate()` call; otherwise none |
| `Game.Tetris.MoveDownAll` | tetris/game.py:127-128 | running: `fall + 1` moves down asked for and `fall` points scored; otherwise nothing |
| `Game.Tetris.Drop` | tetris/game.py:125-132 | the moves and points of `MoveDownAll`; then, with `check_state`, the full rows of the board the falls leave are cleared and scored, the game-over test runs, and `create_block` is called unless over; paused or over, nothing falls, but the clearing and the test still run |

## Left out

- Drawing, key bindings, the start-up threads and packaging
  (`tetris/screen.py`, both `__main__.py`, `setup.py`) are left out. They are
  user interface over a foreign library, two threads sharing one grid with no
  lock, and build metadata.
- Pacing is left out: `time.sleep` in `run` and both `mainloop`s, and the
  endless `mainloop` loops. `Classic.Tetris.Run` is one tick without the sleep.
  The delays `get_game_speed` returns are integers in milliseconds, not floats
  in seconds.
- Randomness is a parameter. `next_block`'s two `random.randint` draws are
  the arguments `kind` and `turns`. `random.shuffle` is any sequence of
  Fisher-Yates choices (`picks`), so every permutation is covered.
  `Shape.__subclasses__()` is the fixed list of the seven kinds, in
  declaration order.
- The `Colors` enumeration is not part of this model. The seven shape colours
  are the tags 1 to 7, in the order O, I, T, J, L, Z, S. The engines only use
  that a colour is not 0.
- `tetris/utils.py` is not part of this model. The `transpose` that
  `tetris/shapes.py` and `tetris/tetris.py` import from it is taken to be the
  one in `tetris/__init__.py`. `zip` yields tuples, which are modelled as
  sequences like the lists around them.
- The grid that `tetris/game.py` drives is not shown. Its `move`, `rotate`,
  `create_block` and `block` are outside the model:
  - their answers (`move`'s result, the block's `can_move` and `row`, and
    how many times `drop` may fall) are parameters;
  - each method returns the list of calls it makes;
  - what those calls do to the board is not modelled: `Game.Tetris.Step`,
    `MoveLeft`, `MoveRight`, `MoveDown`, `Rotate` and `MoveDownAll` leave
    `grid.grid` as it was. `Game.Tetris.Drop` takes the board the falls leave
    as a parameter and clears that one.
  The rows, `grid[row]`, `delete_row` and `reset` that `game.py` also uses
  are those of the `Grid` in `tetris/grid.py`.
- `Grid.__iter__`, `__next__`, `__str__` and `__repr__`, the `__str__` and
  `__repr__` of `Tetrimino` and `Position`, and the `name` strings beyond
  storing them are left out. They are printing and iteration plumbing.
- `Classic.Tetris.CleanCompleteRows`, `Classic.Tetris.Lock` and
  `Game.Tetris.ClearCompleteRows` require at most four full rows. Python would
  raise `IndexError` on a fifth table entry. In the older engine the class
  invariant guarantees the bound. In the newer one the board is filled by the
  grid calls outside the model.
- `Game.Tetris.Step` requires at most four full rows when it clears, that is
  while the game runs and the block cannot move; on its other paths any board
  is accepted.
- `Game.Tetris.Drop` requires at most four full rows on the board it clears
  when `check_state` is set; without it any board is accepted.
- `Classic.Tetris` requires a board at least 4 by 4 with no full row when
  constructed. A smaller board lets a new piece stick out of it, and the
  Python code would then raise `IndexError` or write through negative indices.
- `Classic.Tetris.Collides` requires the piece at a row of 0 or more, which
  the class invariant keeps.
- `Board.Grid.Collides` requires `row + rows >= 0`, the piece box's top row
  no higher than `-rows`. Python asks less: it tests the walls before reading
  the board and reads only under non-zero piece cells, so it also answers
  for a higher piece whose first failing cell is a wall, or whose cells all
  sit at rows of `-rows` or more (an I piece's empty top row, say). It
  raises `IndexError` only when it reads a board row above `-rows`. Those
  higher positions are not modelled. In the model, negative rows down to
  `-rows` wrap as Python's indices do.
- `Board.Grid.SetBlock` and `Board.Grid.RemoveBlock` require the piece's
  cells to lie on the board. Off the board, Python raises `IndexError` or
  wraps a negative index.
- `Blocks.Tetrimino.Rotate` requires a square shape. The loop runs over
  `range(self.width)` and never updates `height` and `width`, so it is only
  correct for squares. Every shape the bag makes is square.
- `Shapes.Shape.constructor` starts the position at (0, 0). In Python the
  attribute does not exist until `set_pos`.
- `Classic.Tetris.MoveDown` and `Classic.Tetris.MoveBottom` use the corrected
  points table, and `Classic.Tetris.Rotate` the corrected rotation (see
  Findings). The written behaviour is modelled beside them, by the as-written
  members.
- `Classic.Tetris.Run` scores a lock with the corrected points table
  `Classic.Points`, where `run` reaches `POINTS[lines_cleared]` as written
  (see Findings).
- `Classic.LockScore` pays the corrected `Classic.Points(n)` times
  `level + 1`, not `POINTS[lines_cleared]` as written: one line adds 40 times
  `level + 1` where Python adds 100 times it, and four lines add 1200 times it
  where Python raises `IndexError`. The written lookup is
  `Classic.PointsAsWritten`.
- `Classic.Tetris.Lock` scores with the corrected points table: one line pays
  40 rather than 100, and four lines pay 1200 where Python raises.
- `Classic.Tetris.CleanCompleteRows` scores with the corrected points table,
  not `POINTS[lines_cleared]` as written.
- `Game.Tetris.GameSpeed` returns the corrected delay `Game.Speed`, not
  `get_game_speed` as written: level 20 gives 33 ms where Python returns
  `None`, and level 11 gives 83 ms where Python returns 67. The written
  lookup is `Game.SpeedAsWritten`.
- The `moving` field of the older engine and the `quit` field of the newer
  one are never changed by the modelled code. They are kept unchanged.

## Findings

| source | as written | input that shows it | evidently intended | confidence | as-written member | corrected member |
|---|---|---|---|---|---|---|
| tetris/tetris.py:188 | `POINTS[lines_cleared]` with `POINTS = [40, 100, 300, 1200]` | one line cleared scores 100 instead of 40; four lines at once index past the end (`IndexError`) | `POINTS[lines_cleared - 1]`, as the comment at tetris/tetris.py:12-16 lists | high; not executed | `Classic.PointsAsWrittenOffByOne` | `Classic.Points` |
| tetris/tetris.py:170-173 | a rejected rotation is undone by `rotate(3)`, but the column the nudge loops moved the piece to is kept | `Classic.KickBoard` with an upright I piece at column -2: its turn is blocked everywhere, and the piece is written back at column 2, over occupied cells | restore the column as well as the shape | high; not executed | `Classic.RotateAsWrittenLandsOnBlocks` | `Classic.Tetris.Rotate` |
| tetris/game.py:41-50 | `10 >= level <= 12` and the like, which Python reads as two upper bounds | level 20 returns `None`, and `time.sleep(None)` raises; level 11 already gets 67 ms | `10 <= level <= 12`, `13 <= level <= 15`, `16 <= level <= 18`, `19 <= level <= 28` | high; not executed | `Game.SpeedAsWrittenMisses` | `Game.Speed` |
