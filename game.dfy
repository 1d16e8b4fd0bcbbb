/**
 * `tetris/game.py`: the newer engine. It keeps score, level and cleared
 * lines, gates the player's commands on pause and game over, clears full
 * rows with the classic point table, and drives a grid through `move`,
 * `rotate`, `create_block` and `block`. The grid that offers those four is
 * not part of this model: their answers (`move`'s result, the block's
 * `can_move` and `row`) are parameters, and each method returns the calls
 * it makes on them, in order. Rows, `delete_row` and `reset` are those of
 * the `Grid` of `tetris/grid.py`.
 */
module Game {
  import opened Wrappers
  import opened Matrix
  import Board

  /** The class constant `POINTS`: indexed by the number of rows cleared at once. */
  const POINTS: seq<nat> := [0, 40, 100, 300, 1200]

  /** The class constant `GAME_SPEED`, levels 0 to 9, in milliseconds. */
  const GAME_SPEED: seq<nat> := [799, 715, 632, 549, 466, 383, 300, 216, 133, 100]

  /**
   * `get_game_speed` as written, in milliseconds. Python reads
   * `10 >= level <= 12` as `10 >= level and level <= 12`, so each band
   * test is really an upper bound; `None` is the implicit return when no
   * branch is taken.
   */
  function SpeedAsWritten(delay: bool, level: nat): (ms: Option<nat>)
    ensures !delay ==> ms == Some(0)
    ensures delay && level < 10 ==> ms == Some(GAME_SPEED[level])
    ensures delay && level == 10 ==> ms == Some(83)
    ensures delay && 11 <= level <= 13 ==> ms == Some(67)
    ensures delay && 14 <= level <= 16 ==> ms == Some(50)
    ensures delay && 17 <= level <= 19 ==> ms == Some(33)
    ensures ms == None <==> delay && 20 <= level <= 28
    ensures delay && level >= 29 ==> ms == Some(17)
  {
    if !delay then Some(0)
    else if level < |GAME_SPEED| then Some(GAME_SPEED[level])
    else if 10 >= level && level <= 12 then Some(83)
    else if 13 >= level && level <= 15 then Some(67)
    else if 16 >= level && level <= 18 then Some(50)
    else if 19 >= level && level <= 28 then Some(33)
    else if level >= 29 then Some(17)
    else None
  }

  /**
   * The bands the constants evidently stand for: 10-12, 13-15, 16-18 and
   * 19-28, then 29 and up. Every level gets a delay.
   */
  function Speed(delay: bool, level: nat): (ms: nat)
    ensures ms == 0 <==> !delay
    ensures delay && level < 10 ==> ms == GAME_SPEED[level]
    ensures delay && 10 <= level <= 12 ==> ms == 83
    ensures delay && 13 <= level <= 15 ==> ms == 67
    ensures delay && 16 <= level <= 18 ==> ms == 50
    ensures delay && 19 <= level <= 28 ==> ms == 33
    ensures delay && level >= 29 ==> ms == 17
  {
    if !delay then 0
    else if level < |GAME_SPEED| then GAME_SPEED[level]
    else if level <= 12 then 83
    else if level <= 15 then 67
    else if level <= 18 then 50
    else if level <= 28 then 33
    else 17
  }

  /** The game never slows down as the level rises. */
  lemma SpeedNonIncreasing(a: nat, b: nat)
    requires a <= b
    ensures Speed(true, b) <= Speed(true, a)
  {
  }

  /**
   * Where the written bands and the intended ones agree: without delay, up
   * to level 10, at the top level of each later band, and from 29 on.
   */
  lemma SpeedAsWrittenAgrees(delay: bool, level: nat)
    ensures SpeedAsWritten(delay, level) == Some(Speed(delay, level)) <==>
      !delay || level <= 10 || level == 13 || level == 16 || level == 19 || level >= 29
  {
  }

  /** Level 20 has no delay at all as written, and level 11 is already in the next band. */
  lemma SpeedAsWrittenMisses()
    ensures SpeedAsWritten(true, 20) == None && Speed(true, 20) == 33
    ensures SpeedAsWritten(true, 11) == Some(67) && Speed(true, 11) == 83
  {
  }

  /** The counters of the game. */
  datatype Stats = Stats(score: nat, level: nat, lines: nat)

  /** Counters only grow. */
  predicate Grew(s: Stats, t: Stats) {
    s.score <= t.score && s.level <= t.level && s.lines <= t.lines
  }

  /**
   * The scoring step of `clear_complete_rows` after `n` rows went: nothing
   * happens unless a row was cleared; otherwise lines grow by `n`, the score
   * by `POINTS[n]` times `level + 1`, and the level goes up by one once
   * the lines reach ten times the next level.
   */
  function AfterClear(s: Stats, n: nat): (t: Stats)
    requires n < |POINTS|
    ensures Grew(s, t) && t.level <= s.level + 1
    ensures n == 0 <==> t == s
    ensures t.lines == s.lines + n
    ensures t.level == s.level + 1 <==> n > 0 && t.lines >= 10 * (s.level + 1)
  {
    if n > 0 then
      var lines := s.lines + n;
      Stats(s.score + POINTS[n] * (s.level + 1), if lines >= 10 * (s.level + 1) then s.level + 1 else s.level, lines)
    else
      s
  }

  /** Two rows pay 100 at level 0 and 200 at level 1; going from 9 to 10 lines reaches level 1. */
  lemma AfterClearExamples()
    ensures AfterClear(Stats(0, 0, 0), 2).score == 100
    ensures AfterClear(Stats(0, 1, 10), 2).score == 200
    ensures AfterClear(Stats(0, 0, 9), 1).level == 1
  {
  }

  /**
   * The level is always the tens digit of the line count: it holds at the
   * start, and as no more than four rows go at once, one level up is always
   * enough to catch up.
   */
  lemma AfterClearKeepsLevel(s: Stats, n: nat)
    requires s.level == s.lines / 10 && n < |POINTS|
    ensures AfterClear(s, n).level == AfterClear(s, n).lines / 10
  {
    var t := AfterClear(s, n);
    assert 10 * s.level <= s.lines < 10 * s.level + 10;
    if t.lines >= 10 * (s.level + 1) {
      assert 10 * t.level <= t.lines < 10 * t.level + 10;
    } else {
      assert 10 * t.level <= t.lines < 10 * t.level + 10;
    }
  }

  /** A call the engine makes on the grid API this model does not see. */
  datatype GridCall = Move(dc: int, dr: int) | Rotate | CreateBlock

  /** `n` calls of `grid.move(0, 1)`. */
  function Falls(n: nat): (c: seq<GridCall>)
    ensures |c| == n && forall i :: 0 <= i < n ==> c[i] == Move(0, 1)
  {
    seq(n, _ => Move(0, 1))
  }

  class Tetris {
    const grid: Board.Grid
    var pause: bool
    var gameOver: bool
    var quit: bool
    var score: nat
    var level: nat
    var lines: nat
    const delay: bool

    /** The board is well formed and the level is the tens digit of the lines. */
    ghost predicate Valid()
      reads this, grid
    {
      grid.Valid() && level == lines / 10
    }

    function Counts(): Stats
      reads this
    {
      Stats(score, level, lines)
    }

    /** `get_game_speed`, with the bands corrected: the pause between two ticks, in milliseconds. */
    function GameSpeed(): (ms: nat)
      reads this
      ensures ms == 0 <==> !delay
      ensures delay ==> 17 <= ms <= 799
    {
      Speed(delay, level)
    }

    /** Commands act only while the game runs. */
    predicate Running()
      reads this
    {
      !pause && !gameOver
    }

    /** `__init__`: nothing scored, not paused, not over. */
    constructor (grid: Board.Grid, delay: bool)
      requires grid.Valid()
      ensures Valid() && this.grid == grid && this.delay == delay
      ensures !pause && !gameOver && !quit && Counts() == Stats(0, 0, 0)
    {
      this.grid := grid;
      pause := false;
      gameOver := false;
      quit := false;
      score := 0;
      level := 0;
      lines := 0;
      this.delay := delay;
    }

    /**
     * `step`, one tick: while running, the block falls if it can; else full
     * rows are cleared and, unless that ends the game, a new block is made.
     * `grid.move`'s answer is not used here, and no point is scored for the
     * fall.
     */
    method Step(canMove: bool, blockRow: int) returns (calls: seq<GridCall>)
      requires Valid()
      requires Running() && !canMove ==> CountFull(grid.grid) < |POINTS|
      modifies this, grid
      ensures Valid() && pause == old(pause) && quit == old(quit)
      ensures !old(Running()) || canMove ==>
        grid.grid == old(grid.grid) && Counts() == old(Counts()) && gameOver == old(gameOver)
      ensures calls == if !old(Running()) then []
        else if canMove then [Move(0, 1)]
        else if blockRow <= 0 then []
        else [CreateBlock]
      ensures old(Running()) && !canMove ==>
        grid.grid == Cleared(old(grid.grid), grid.cols) &&
        Counts() == AfterClear(old(Counts()), CountFull(old(grid.grid))) &&
        gameOver == (blockRow <= 0)
    {
      calls := [];
      if !pause && !gameOver {
        if canMove {
          calls := [Move(0, 1)];
        } else {
          var _ := ClearCompleteRows();
          var over := IsGameOver(canMove, blockRow);
          if !over {
            calls := [CreateBlock];
          }
        }
      }
    }

    /** `play_pause`: toggle the pause while the game is on; after game over, start again. */
    method PlayPause()
      requires Valid()
      modifies this, grid
      ensures Valid() && quit == old(quit)
      ensures !old(gameOver) ==>
        grid.grid == old(grid.grid) && Counts() == old(Counts()) && pause == !old(pause) && !gameOver
      ensures old(gameOver) ==>
        grid.grid == Zeros(grid.rows, grid.cols) && Counts() == Stats(0, 0, 0) && !pause && !gameOver
    {
      if !gameOver {
        pause := !pause;
      } else {
        ResetGame();
      }
    }

    /** `reset_game`: an empty board and all counters back to zero. */
    method ResetGame()
      requires Valid()
      modifies this, grid
      ensures Valid() && quit == old(quit)
      ensures grid.grid == Zeros(grid.rows, grid.cols) && Counts() == Stats(0, 0, 0)
      ensures !pause && !gameOver
    {
      grid.Reset();
      pause := false;
      gameOver := false;
      score := 0;
      level := 0;
      lines := 0;
    }

    /**
     * `clear_complete_rows`: the rows are scanned top to bottom and each full
     * one deleted, which moves the rows above it down by one; the cleared
     * rows are then counted and scored. No more than four rows can be full
     * at once (one piece spans at most four rows): `POINTS` has no entry
     * beyond that.
     */
    method ClearCompleteRows() returns (rowsCleared: nat)
      requires Valid() && CountFull(grid.grid) < |POINTS|
      modifies this, grid
      ensures Valid() && pause == old(pause) && gameOver == old(gameOver) && quit == old(quit)
      ensures rowsCleared == CountFull(old(grid.grid))
      ensures grid.grid == Cleared(old(grid.grid), grid.cols)
      ensures Counts() == AfterClear(old(Counts()), rowsCleared)
    {
      rowsCleared := DeleteFullRows();
      AfterClearKeepsLevel(Counts(), rowsCleared);
      if rowsCleared > 0 {
        lines := lines + rowsCleared;
        score := score + POINTS[rowsCleared] * (level + 1);
        var linesToLevelUp := 10 * (level + 1);
        if lines >= linesToLevelUp {
          level := level + 1;
        }
      }
    }

    /**
     * The scan of `clear_complete_rows`: each full row, top to bottom, is
     * deleted; the full rows are gone, in order, under as many zero rows.
     */
    method DeleteFullRows() returns (rowsCleared: nat)
      requires grid.Valid()
      modifies grid
      ensures grid.Valid() && grid.grid == Cleared(old(grid.grid), grid.cols)
      ensures rowsCleared == CountFull(old(grid.grid))
    {
      ghost var b := grid.grid;
      rowsCleared := 0;
      for row := 0 to grid.rows
        invariant grid.Valid()
        invariant grid.grid == Cleared(b[..row], grid.cols) + b[row..]
        invariant rowsCleared == CountFull(b[..row])
      {
        ClearStep(b, row, grid.cols);
        if 0 !in grid.Row(row) {
          rowsCleared := rowsCleared + 1;
          grid.DeleteRow(row);
        }
      }
      assert b[..grid.rows] == b && b[grid.rows..] == [];
    }

    /**
     * `is_game_over`: the game ends when the block can move no more at the
     * top row or above; once over, it stays over.
     */
    method IsGameOver(canMove: bool, blockRow: int) returns (over: bool)
      modifies this
      ensures over == gameOver
      ensures gameOver == (old(gameOver) || (!canMove && blockRow <= 0))
      ensures pause == old(pause) && quit == old(quit) && Counts() == old(Counts())
    {
      if !canMove && blockRow <= 0 {
        gameOver := true;
      }
      over := gameOver;
    }

    /** `move_left`: `grid.move(-1, 0)` while running; `None` otherwise. */
    method MoveLeft(moved: bool) returns (r: Option<bool>, calls: seq<GridCall>)
      ensures Running() ==> r == Some(moved) && calls == [Move(-1, 0)]
      ensures !Running() ==> r == None && calls == []
    {
      r, calls := None, [];
      if !gameOver && !pause {
        r, calls := Some(moved), [Move(-1, 0)];
      }
    }

    /** `move_right`: `grid.move(1, 0)` while running; `None` otherwise. */
    method MoveRight(moved: bool) returns (r: Option<bool>, calls: seq<GridCall>)
      ensures Running() ==> r == Some(moved) && calls == [Move(1, 0)]
      ensures !Running() ==> r == None && calls == []
    {
      r, calls := None, [];
      if !gameOver && !pause {
        r, calls := Some(moved), [Move(1, 0)];
      }
    }

    /** `move_down`: `grid.move(0, 1)` while running, and a point when the block did move. */
    method MoveDown(moved: bool) returns (r: Option<bool>, calls: seq<GridCall>)
      modifies this
      ensures pause == old(pause) && gameOver == old(gameOver) && quit == old(quit)
      ensures level == old(level) && lines == old(lines)
      ensures old(Running()) ==>
        r == Some(moved) && calls == [Move(0, 1)] && score == old(score) + (if moved then 1 else 0)
      ensures !old(Running()) ==> r == None && calls == [] && score == old(score)
    {
      r, calls := None, [];
      if !gameOver && !pause {
        r, calls := Some(moved), [Move(0, 1)];
        if moved {
          score := score + 1;
        }
      }
    }

    /** `rotate`: `grid.rotate()` while running. */
    method Rotate() returns (calls: seq<GridCall>)
      ensures calls == if Running() then [GridCall.Rotate] else []
    {
      calls := [];
      if !gameOver && !pause {
        calls := [GridCall.Rotate];
      }
    }

    /**
     * `while self.move_down(): pass`, the grid letting the block fall `fall`
     * times: while running, `fall + 1` moves are asked for and `fall` points
     * scored; otherwise the first answer is `None` and nothing happens.
     */
    method MoveDownAll(fall: nat) returns (calls: seq<GridCall>)
      requires level == lines / 10
      modifies this
      ensures level == lines / 10
      ensures pause == old(pause) && gameOver == old(gameOver) && quit == old(quit)
      ensures calls == Falls(if old(Running()) then fall + 1 else 0)
      ensures Counts() == old(Counts()).(score := old(score) + if old(Running()) then fall else 0)
    {
      var k := 0;
      var r, c := MoveDown(0 < fall);
      calls := c;
      while r == Some(true)
        invariant pause == old(pause) && gameOver == old(gameOver) && quit == old(quit)
        invariant level == old(level) && lines == old(lines) && level == lines / 10
        invariant old(Running()) ==>
          k <= fall && r == Some(k < fall) && calls == Falls(k + 1) && score == old(score) + (if k < fall then k + 1 else fall)
        invariant !old(Running()) ==> r == None && calls == [] && score == old(score)
        modifies this
        decreases fall - k
      {
        k := k + 1;
        r, c := MoveDown(k < fall);
        assert Falls(k + 1) == Falls(k) + c;
        calls := calls + c;
      }
    }

    /**
     * `drop`: `move_down` until it answers falsy, then (with `checkState`)
     * clear rows and make a new block unless the game is over. The grid lets
     * the block fall `fall` times; when paused or over, the first
     * `move_down` answers `None` and nothing moves, but the rows are still
     * cleared and the game-over test still runs. `fallen` is the board as
     * the grid's moves leave it; the clearing works on that board.
     */
    method Drop(fall: nat, checkState: bool, canMove: bool, blockRow: int, fallen: Matrix.Board)
      returns (calls: seq<GridCall>)
      requires Valid() && IsGrid(fallen, grid.rows, grid.cols)
      requires checkState ==> CountFull(if Running() then fallen else grid.grid) < |POINTS|
      modifies this, grid
      ensures Valid() && pause == old(pause) && quit == old(quit)
      ensures var moves := if old(Running()) then fall + 1 else 0;
        calls == Falls(moves) + (if checkState && !gameOver then [CreateBlock] else [])
      ensures var fell := old(Counts()).(score := old(score) + if old(Running()) then fall else 0);
        var board := if old(Running()) then fallen else old(grid.grid);
        if checkState then
          grid.grid == Cleared(board, grid.cols) &&
          Counts() == AfterClear(fell, CountFull(board)) &&
          gameOver == (old(gameOver) || (!canMove && blockRow <= 0))
        else
          grid.grid == board && Counts() == fell && gameOver == old(gameOver)
    {
      var running := Running();
      calls := MoveDownAll(fall);
      if running {
        grid.grid := fallen;
      }
      if checkState {
        var _ := ClearCompleteRows();
        var over := IsGameOver(canMove, blockRow);
        if !over {
          calls := calls + [CreateBlock];
        }
      }
    }
  }
}
