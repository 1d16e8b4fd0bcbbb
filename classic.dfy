/**
 * `tetris/tetris.py`: the older engine. It owns a `tetris.Grid` and a
 * falling `Shape`, stamps and erases the piece on the board itself, moves
 * and rotates it with a boolean collision test, locks it when it cannot
 * fall, clears full rows and scores them, and counts holes.
 */
module Classic {
  import opened Wrappers
  import opened Matrix
  import opened Package
  import opened Footprint
  import opened Shapes

  /** The class constant `POINTS`. */
  const POINTS: seq<nat> := [40, 100, 300, 1200]

  /**
   * The score step as written: `POINTS[lines_cleared]`, uncaught
   * `IndexError` (here `None`) when four lines go at once.
   */
  function PointsAsWritten(n: nat): (p: Option<nat>)
    ensures p.Some? <==> n < |POINTS|
    ensures p.Some? ==> p.value == POINTS[n]
  {
    if n < |POINTS| then Some(POINTS[n]) else None
  }

  /**
   * The table's comment pays 40 for one line and 1200 for four; indexed by
   * the raw count, one line pays 100 and four lines raise an error.
   */
  lemma PointsAsWrittenOffByOne()
    ensures PointsAsWritten(1) == Some(100) && PointsAsWritten(1) != Some(40)
    ensures PointsAsWritten(4) == None
  {
  }

  /** The table as its comment reads: `n` lines at once, for `n` from 1 to 4. */
  function Points(n: nat): (p: nat)
    requires 1 <= n <= 4
    ensures n == 1 ==> p == 40
    ensures n == 2 ==> p == 100
    ensures n == 3 ==> p == 300
    ensures n == 4 ==> p == 1200
  {
    POINTS[n - 1]
  }

  /** Clearing more lines at once pays more per line. */
  lemma PointsAsCommented()
    ensures forall a, b :: 1 <= a < b <= 4 ==> Points(a) * b < Points(b) * a
  {
  }

  /**
   * The score after clearing `n` lines at `level`: it never falls, it
   * changes exactly when a line went, and then by between 40 and 1200
   * times `level + 1`.
   */
  function LockScore(score: nat, level: nat, n: nat): (s: nat)
    requires n <= 4
    ensures s == score <==> n == 0
    ensures n > 0 ==> score + 40 * (level + 1) <= s <= score + 1200 * (level + 1)
  {
    if n > 0 then score + Points(n) * (level + 1) else score
  }

  /** The shape has at least one piece cell. */
  ghost predicate HasCell(s: Board) {
    exists r, c :: Covers(s, r, c)
  }

  /** A quarter-turn of a square keeps a piece cell. */
  lemma TurnHasCell(s: Board, n: nat)
    requires IsSquare(s, n) && HasCell(s)
    ensures IsSquare(Turn(s), n) && HasCell(Turn(s))
  {
    var r, c :| Covers(s, r, c);
    TurnSquare(s, n);
    assert Turn(s)[c][n - 1 - r] == s[r][c];
    assert Covers(Turn(s), c, n - 1 - r);
  }

  lemma {:induction false} TurnsHasCell(s: Board, n: nat, times: nat)
    requires IsSquare(s, n) && HasCell(s)
    ensures IsSquare(Turns(s, times), n) && HasCell(Turns(s, times))
  {
    if times > 0 {
      TurnsHasCell(s, n, times - 1);
      TurnHasCell(Turns(s, times - 1), n);
    }
  }

  /**
   * `next_block`'s piece before its position is set: the kind's table,
   * tagged with its colour, turned `turns` times.
   */
  function SpawnShape(k: Kind, turns: nat): (s: Board)
    ensures IsSquare(s, Side(k))
  {
    TableSquare(k);
    ColoredCells(Table(k), ColorTag(k));
    assert IsSquare(Colored(Table(k), ColorTag(k)), Side(k));
    TurnsKeep(Colored(Table(k), ColorTag(k)), Side(k), turns);
    Turns(Colored(Table(k), ColorTag(k)), turns)
  }

  /** `next_block`'s column: `floor(cols / 2) - ceil(n / 2)` for a box of side `n`. */
  function SpawnCol(cols: nat, k: Kind): int {
    cols / 2 - (Side(k) + 1) / 2
  }

  /** A spawned piece is a square of side 2..4 with four cells in its colour. */
  lemma SpawnFacts(k: Kind, turns: nat)
    ensures 2 <= Side(k) <= 4 && IsSquare(SpawnShape(k, turns), Side(k))
    ensures HasCell(SpawnShape(k, turns))
    ensures Cells(SpawnShape(k, turns)) == Cells(Colored(Table(k), ColorTag(k)))
  {
    TableSquare(k);
    TableCells(k);
    ColoredSquare(Table(k), Side(k), ColorTag(k));
    var m := Colored(Table(k), ColorTag(k));
    TurnsHasCell(m, Side(k), turns);
    TurnsKeep(m, Side(k), turns);
  }

  /** Tagging a square that holds a 1 gives a square with a piece cell. */
  lemma ColoredSquare(t: Board, n: nat, color: int)
    requires IsSquare(t, n) && 1 in Cells(t) && color != 0
    ensures IsSquare(Colored(t, color), n) && HasCell(Colored(t, color))
  {
    var m := Colored(t, color);
    ColoredCells(t, color);
    CellsHas(t, 1);
    var r, c :| 0 <= r < |t| && 0 <= c < |t[r]| && t[r][c] == 1;
    assert Covers(m, r, c);
  }

  /** A value counted in `Cells(m)` sits in some cell. */
  lemma {:induction false} CellsHas(m: Board, x: int)
    requires x in Cells(m)
    ensures exists r, c :: 0 <= r < |m| && 0 <= c < |m[r]| && m[r][c] == x
    decreases |m|
  {
    assert |m| > 0;
    if x in multiset(m[0]) {
      var c :| 0 <= c < |m[0]| && m[0][c] == x;
      assert m[0][c] == x;
    } else {
      CellsHas(m[1..], x);
      var r, c :| 0 <= r < |m[1..]| && 0 <= c < |m[1..][r]| && m[1..][r][c] == x;
      assert m[r + 1][c] == x;
    }
  }

  /**
   * On a board at least four wide the spawn box lies inside the board, with
   * at most two more free columns to its right than to its left.
   */
  lemma SpawnInside(cols: nat, k: Kind)
    requires cols >= 4
    ensures 0 <= SpawnCol(cols, k) && SpawnCol(cols, k) + Side(k) <= cols
    ensures 0 <= (cols - SpawnCol(cols, k) - Side(k)) - SpawnCol(cols, k) <= 2
  {
  }

  /** A square piece whose box lies on the board fits there. */
  lemma BoxFits(b: Board, rows: nat, cols: nat, s: Board, n: nat, row: int, col: int)
    requires IsGrid(b, rows, cols) && IsSquare(s, n)
    requires 0 <= row && row + n <= rows && 0 <= col && col + n <= cols
    ensures Fits(b, s, row, col)
  {
  }

  /** A falling piece: a square of side 1..4 with at least one cell. */
  ghost predicate Piece(s: Board) {
    1 <= |s| <= 4 && IsSquare(s, |s|) && HasCell(s)
  }

  /**
   * A spawned piece stamped over a board without full rows, covering
   * whatever was there: the board it falls over is the old one with the
   * covered cells cleared, which still has no full row and leaves the piece
   * on free cells.
   */
  lemma SpawnOnto(c: Board, rows: nat, cols: nat, k: Kind, turns: nat)
    requires IsGrid(c, rows, cols) && rows >= 4 && cols >= 4 && NoFullRow(c)
    ensures Piece(SpawnShape(k, turns)) && Fits(c, SpawnShape(k, turns), 0, SpawnCol(cols, k))
    ensures IsGrid(Erase(c, SpawnShape(k, turns), 0, SpawnCol(cols, k)), rows, cols)
    ensures NoFullRow(Erase(c, SpawnShape(k, turns), 0, SpawnCol(cols, k)))
    ensures Free(Erase(c, SpawnShape(k, turns), 0, SpawnCol(cols, k)), SpawnShape(k, turns), 0, SpawnCol(cols, k))
    ensures Stamp(Erase(c, SpawnShape(k, turns), 0, SpawnCol(cols, k)), SpawnShape(k, turns), 0, SpawnCol(cols, k)) ==
            Stamp(c, SpawnShape(k, turns), 0, SpawnCol(cols, k))
  {
    var s := SpawnShape(k, turns);
    var col := SpawnCol(cols, k);
    SpawnFacts(k, turns);
    SpawnInside(cols, k);
    BoxFits(c, rows, cols, s, Side(k), 0, col);
    PaintIsGrid(c, s, 0, col, |s|, 0, true, rows, cols);
    EraseKeepsNoFullRow(c, s, 0, col);
    FreeAfterErase(c, s, 0, col);
    StampErase(c, s, 0, col);
  }

  /** The column the right-kick loop stops at: up to `k` steps right, stopping on the first free one. */
  ghost function KickRight(b: Board, s: Board, row: int, col: int, k: nat): (c: int)
    ensures col <= c <= col + k
    ensures c < col + k ==> Free(b, s, row, c)
    ensures c > col ==> forall c' :: col < c' < c ==> !Free(b, s, row, c')
    decreases k
  {
    if k == 0 then col
    else if Free(b, s, row, col + 1) then col + 1
    else KickRight(b, s, row, col + 1, k - 1)
  }

  /** The column the left-kick loop stops at: up to `k` steps left, stopping on the first free one. */
  ghost function KickLeft(b: Board, s: Board, row: int, col: int, k: nat): (c: int)
    ensures col - k <= c <= col
    ensures c > col - k ==> Free(b, s, row, c)
    ensures c < col ==> forall c' :: c < c' < col ==> !Free(b, s, row, c')
    decreases k
  {
    if k == 0 then col
    else if Free(b, s, row, col - 1) then col - 1
    else KickLeft(b, s, row, col - 1, k - 1)
  }

  /**
   * `rotate`'s two nudges for the turned shape `t`: right while it collides
   * at or left of column 0, then left while it still collides and its box
   * reaches `last_col`, each at most `cols` steps.
   */
  ghost function Kicked(b: Board, t: Board, row: int, col: int, lastCol: int): (c: int)
    requires |t| > 0
    ensures Free(b, t, row, col) ==> c == col
  {
    var n := |t[0]|;
    var c1 := if !Free(b, t, row, col) && col <= 0 then KickRight(b, t, row, col, n) else col;
    if !Free(b, t, row, c1) && c1 + n >= lastCol then KickLeft(b, t, row, c1, n) else c1
  }

  /**
   * `rotate` as written, on the board without the piece: turn, nudge, and
   * when the turned piece still collides turn three more times: the shape
   * comes back, but at the nudged column.
   */
  ghost function RotateAsWritten(b: Board, s: Board, row: int, col: int, lastCol: int): (r: (Board, int))
    requires IsSquare(s, |s|) && |s| > 0
    ensures !Free(b, Turn(s), row, r.1) ==> r.0 == s
  {
    var t := Turn(s);
    var c := Kicked(b, t, row, col, lastCol);
    ThreeTurnsUndoOne(s);
    if Free(b, t, row, c) then (t, c) else (Turns(t, 3), c)
  }

  /** `rotate` as intended: a rejected rotation also undoes the nudges. */
  ghost function Rotated(b: Board, s: Board, row: int, col: int, lastCol: int): (r: (Board, int))
    requires IsSquare(s, |s|) && |s| > 0
    ensures Free(b, s, row, col) ==> Free(b, r.0, row, r.1)
    ensures r.0 == Turn(s) || r == (s, col)
  {
    var t := Turn(s);
    var c := Kicked(b, t, row, col, lastCol);
    if Free(b, t, row, c) then (t, c) else (s, col)
  }

  /** `Rotated` from the outcome of the turn and the nudges. */
  lemma RotatedIs(b: Board, s: Board, row: int, col: int, lastCol: int, c: int, hit: bool)
    requires IsSquare(s, |s|) && |s| > 0
    requires c == Kicked(b, Turn(s), row, col, lastCol) && hit == !Free(b, Turn(s), row, c)
    ensures Rotated(b, s, row, col, lastCol) == if hit then (s, col) else (Turn(s), c)
  {
  }

  /**
   * A vertical I piece against the left wall, next to a row segment at
   * columns 1..4: the turned piece collides at every nudge, the right kick
   * ends at column 2, and the restored shape is stamped there, across the
   * settled cell (2, 4), instead of back at column -2 where it was free.
   */
  lemma RotateAsWrittenLandsOnBlocks()
    ensures var b := KickBoard(); var v := Vertical();
      Free(b, v, 0, -2) && RotateAsWritten(b, v, 0, -2, 9) == (v, 2) && !Free(b, v, 0, 2) &&
      Rotated(b, v, 0, -2, 9) == (v, -2)
  {
    var b := KickBoard();
    var v := Vertical();
    var h := Horizontal();
    VerticalTurns();
    VerticalFree();
    HorizontalBlocked();
    assert KickRight(b, h, 0, 1, 1) == 2;
    assert KickRight(b, h, 0, 0, 2) == 2;
    assert KickRight(b, h, 0, -1, 3) == 2;
    assert KickRight(b, h, 0, -2, 4) == 2;
    assert Kicked(b, h, 0, -2, 9) == 2;
    ThreeTurnsUndoOne(v);
    VerticalBlocked();
  }

  /** At column 2 the upright I piece lies across the settled cell (2, 4). */
  lemma VerticalBlocked()
    ensures !Free(KickBoard(), Vertical(), 0, 2)
  {
    assert Covers(Vertical(), 2, 2) && KickBoard()[2][4] != 0;
  }

  /** The upright I piece is free at column -2 (its cells fall in column 0). */
  lemma VerticalFree()
    ensures Free(KickBoard(), Vertical(), 0, -2)
  {
    var b := KickBoard();
    var v := Vertical();
    forall r, c | Covers(v, r, c) ensures 0 <= r + 0 < |b| && 0 <= -2 + c < |b[r]| && b[r][-2 + c] == 0 {
      assert r == 0 || r == 1 || r == 2 || r == 3;
      assert v[r] == [0, 0, 2, 0];
      assert c == 2;
    }
  }

  /** The flat I piece collides at every column from -2 to 2: off the board or across the segment. */
  lemma HorizontalBlocked()
    ensures forall c :: -2 <= c <= 2 ==> !Free(KickBoard(), Horizontal(), 0, c)
  {
    var b := KickBoard();
    var h := Horizontal();
    assert Covers(h, 2, 0) && Covers(h, 2, 3);
    assert b[2][1] != 0 && b[2][2] != 0 && b[2][3] != 0 && b[2][4] != 0;
  }

  function KickBoard(): Board {
    [[0, 0, 0, 0, 0, 0, 0, 0, 0, 0],
     [0, 0, 0, 0, 0, 0, 0, 0, 0, 0],
     [0, 1, 1, 1, 1, 0, 0, 0, 0, 0],
     [0, 0, 0, 0, 0, 0, 0, 0, 0, 0]]
  }

  function Vertical(): Board {
    [[0, 0, 2, 0], [0, 0, 2, 0], [0, 0, 2, 0], [0, 0, 2, 0]]
  }

  function Horizontal(): Board {
    [[0, 0, 0, 0], [0, 0, 0, 0], [2, 2, 2, 2], [0, 0, 0, 0]]
  }

  /** The I piece stands upright after one turn of its table and lies flat after one more. */
  lemma VerticalTurns()
    ensures IsSquare(Vertical(), 4) && Turn(Vertical()) == Horizontal()
  {
    var v := Vertical();
    var t := Turn(v);
    var h := Horizontal();
    TurnAt(v);
    forall i | 0 <= i < 4 ensures t[i] == h[i] {
      forall j | 0 <= j < 4 ensures t[i][j] == h[i][j] {
        assert t[i][j] == v[3 - j][i];
      }
    }
  }

  /** `.count(0)`. */
  function CountZeros(s: seq<int>): nat {
    multiset(s)[0]
  }

  /** Every cell of the column is 0. */
  predicate Empty(s: seq<int>) {
    forall i :: 0 <= i < |s| ==> s[i] == 0
  }

  /** The holes of one column as `calc_holes` counts them: the zeros after its first non-zero cell. */
  function ColumnHoles(col: seq<int>): nat {
    if |col| == 0 then 0
    else if col[0] != 0 then CountZeros(col[1..])
    else ColumnHoles(col[1..])
  }

  /** An independent count: cell by cell from the bottom, a zero with a non-zero cell above it. */
  function HolesBelow(col: seq<int>): nat {
    if |col| == 0 then 0
    else HolesBelow(col[..|col| - 1]) + (if col[|col| - 1] == 0 && !Empty(col[..|col| - 1]) then 1 else 0)
  }

  lemma {:induction false} HolesBelowUnderBlock(x: int, rest: seq<int>)
    requires x != 0
    ensures HolesBelow([x] + rest) == CountZeros(rest)
    decreases |rest|
  {
    var s := [x] + rest;
    if |rest| > 0 {
      var rest' := rest[..|rest| - 1];
      assert s[..|s| - 1] == [x] + rest';
      HolesBelowUnderBlock(x, rest');
      assert !Empty([x] + rest') by {
        assert ([x] + rest')[0] != 0;
      }
      assert rest == rest' + [rest[|rest| - 1]];
      assert multiset(rest) == multiset(rest') + multiset{rest[|rest| - 1]};
    } else {
      assert s[..0] == [];
    }
  }

  lemma {:induction false} HolesBelowUnderZero(rest: seq<int>)
    ensures HolesBelow([0] + rest) == HolesBelow(rest)
    decreases |rest|
  {
    var s := [0] + rest;
    if |rest| > 0 {
      var rest' := rest[..|rest| - 1];
      assert s[..|s| - 1] == [0] + rest';
      HolesBelowUnderZero(rest');
      assert Empty([0] + rest') <==> Empty(rest') by {
        if Empty(rest') {
          forall i | 0 <= i < |[0] + rest'| ensures ([0] + rest')[i] == 0 {
            if i > 0 {
              assert ([0] + rest')[i] == rest'[i - 1];
            }
          }
        }
        if Empty([0] + rest') {
          forall i | 0 <= i < |rest'| ensures rest'[i] == 0 {
            assert rest'[i] == ([0] + rest')[i + 1];
          }
        }
      }
    } else {
      assert s[..0] == [];
    }
  }

  /** Both ways of counting a column's holes agree. */
  lemma {:induction false} ColumnHolesAreHolesBelow(col: seq<int>)
    ensures ColumnHoles(col) == HolesBelow(col)
    decreases |col|
  {
    if |col| > 0 {
      assert col == [col[0]] + col[1..];
      if col[0] != 0 {
        HolesBelowUnderBlock(col[0], col[1..]);
      } else {
        ColumnHolesAreHolesBelow(col[1..]);
        HolesBelowUnderZero(col[1..]);
      }
    }
  }

  /** An empty column has no holes. */
  lemma {:induction false} EmptyColumnNoHoles(col: seq<int>)
    requires Empty(col)
    ensures ColumnHoles(col) == 0
    decreases |col|
  {
    if |col| > 0 {
      EmptyColumnNoHoles(col[1..]);
    }
  }

  /** The holes of the first `|cols|` columns. */
  function SumHoles(cols: seq<seq<int>>): nat {
    if |cols| == 0 then 0 else SumHoles(cols[..|cols| - 1]) + ColumnHoles(cols[|cols| - 1])
  }

  /** `calc_holes`' result: the holes of every column of the board. */
  function Holes(b: Board): nat
    requires IsRect(b)
  {
    SumHoles(Transpose(b))
  }

  lemma {:induction false} SumHolesOfEmpty(cols: seq<seq<int>>)
    requires forall i :: 0 <= i < |cols| ==> Empty(cols[i])
    ensures SumHoles(cols) == 0
    decreases |cols|
  {
    if |cols| > 0 {
      SumHolesOfEmpty(cols[..|cols| - 1]);
      EmptyColumnNoHoles(cols[|cols| - 1]);
    }
  }

  /** An empty board has no holes. */
  lemma EmptyBoardNoHoles(rows: nat, cols: nat)
    ensures IsRect(Zeros(rows, cols)) && Holes(Zeros(rows, cols)) == 0
  {
    var z := Zeros(rows, cols);
    var t := Transpose(z);
    forall i | 0 <= i < |t| ensures Empty(t[i]) {
      forall j | 0 <= j < |t[i]| ensures t[i][j] == 0 {
        assert t[i][j] == z[j][i];
      }
    }
    SumHolesOfEmpty(t);
  }

  /** How many rows a piece falls before it rests: every row on the way is free, the next is not. */
  ghost function DropDistance(b: Board, s: Board, row: int, col: int): (d: nat)
    requires HasCell(s)
    ensures forall r :: row < r <= row + d ==> Free(b, s, r, col)
    ensures !Free(b, s, row + d + 1, col)
    decreases |b| - row
  {
    if Free(b, s, row + 1, col) then
      FreeRowBound(b, s, row + 1, col);
      1 + DropDistance(b, s, row + 1, col)
    else 0
  }

  /** A free piece with a cell starts on the board. */
  lemma FreeRowBound(b: Board, s: Board, row: int, col: int)
    requires HasCell(s) && Free(b, s, row, col)
    ensures row < |b|
  {
    var r, c :| Covers(s, r, c);
  }

  /** The fall `move_bottom` makes is the drop distance: free all the way, blocked one row further. */
  lemma {:induction false} DropDistanceIs(b: Board, s: Board, row: int, col: int, d: nat)
    requires HasCell(s)
    requires forall r :: row < r <= row + d ==> Free(b, s, r, col)
    requires !Free(b, s, row + d + 1, col)
    ensures DropDistance(b, s, row, col) == d
    decreases d
  {
    if d > 0 {
      assert Free(b, s, row + 1, col);
      DropDistanceIs(b, s, row + 1, col, d - 1);
    }
  }

  /** The engine's counters. */
  datatype Counters = Counters(score: nat, level: nat, totalLines: nat, pause: bool, gameOver: bool, holes: nat)

  /** `tetris.tetris.Tetris`. */
  class Tetris {
    const grid: Grid
    var currentBlock: Shape?
    var moving: bool
    var score: nat
    var level: nat
    var totalLines: nat
    var pause: bool
    var gameOver: bool
    var holes: nat
    /** The board without the falling piece (the whole board when there is none). */
    ghost var rest: Board

    /**
     * The board is at least 4 by 4. Without the falling piece it has no full
     * row; the piece, if any, sits at a row of 0 or more on free cells of
     * that board and is stamped on it.
     */
    ghost predicate Valid()
      reads this, grid, currentBlock
    {
      grid.Valid() && grid.rows >= 4 && grid.cols >= 4 &&
      IsGrid(rest, grid.rows, grid.cols) && NoFullRow(rest) &&
      (currentBlock == null ==> grid.grid == rest) &&
      (currentBlock != null ==>
        Piece(currentBlock.shape) && currentBlock.position.row >= 0 &&
        Free(rest, currentBlock.shape, currentBlock.position.row, currentBlock.position.col) &&
        grid.grid == Stamp(rest, currentBlock.shape, currentBlock.position.row, currentBlock.position.col))
    }

    /** The state between `remove_block` and `set_block`: the board is the board without the piece. */
    ghost predicate Lifted()
      reads this, grid, currentBlock
    {
      grid.Valid() && grid.rows >= 4 && grid.cols >= 4 &&
      IsGrid(rest, grid.rows, grid.cols) && NoFullRow(rest) &&
      currentBlock != null && Piece(currentBlock.shape) && grid.grid == rest
    }

    ghost function Counts(): Counters
      reads this
    {
      Counters(score, level, totalLines, pause, gameOver, holes)
    }

    /**
     * The state once the piece that stood at row `lockRow` locked on board
     * `locked`, from counters `c`: the full rows are gone and scored, the
     * game is over if the piece locked in the top row, the holes are
     * recounted, and a new piece of kind `Kinds[kind]` turned `turns` times
     * stands stamped at the top centre, over whatever was there.
     */
    ghost predicate AfterLock(locked: Board, c: Counters, lockRow: int, kind: nat, turns: nat)
      reads this, grid, currentBlock
    {
      kind < |Kinds| && grid.cols > 0 && IsGrid(locked, grid.rows, grid.cols) && CountFull(locked) <= 4 &&
      (ClearedGrid(locked, grid.rows, grid.cols);
       Counts() == Counters(LockScore(c.score, c.level, CountFull(locked)), c.level, c.totalLines + CountFull(locked),
                            c.pause, c.gameOver || lockRow <= 0, Holes(Cleared(locked, grid.cols)))) &&
      Spawned(Cleared(locked, grid.cols), kind, turns)
    }

    /**
     * A new piece of kind `Kinds[kind]` turned `turns` times stands stamped
     * at the top centre of board `c`, over whatever was there.
     */
    ghost predicate Spawned(c: Board, kind: nat, turns: nat)
      reads this, grid, currentBlock
    {
      kind < |Kinds| &&
      currentBlock != null &&
      currentBlock.shape == SpawnShape(Kinds[kind], turns) &&
      currentBlock.color == ColorTag(Kinds[kind]) &&
      currentBlock.position == Position(0, SpawnCol(grid.cols, Kinds[kind])) &&
      grid.grid == Stamp(c, currentBlock.shape, 0, currentBlock.position.col) &&
      rest == Erase(c, currentBlock.shape, 0, currentBlock.position.col)
    }

    /**
     * The state once piece `block` with shape `s`, first at `p`, fell `d`
     * rows through free cells of the board without it, each row scoring 1.
     */
    ghost predicate Fallen(block: Shape, s: Board, p: Position, d: nat, c: Counters)
      reads this, grid, block
    {
      currentBlock == block && block.shape == s && block.position == Position(p.row + d, p.col) &&
      (forall r :: p.row < r <= p.row + d ==> Free(rest, s, r, p.col)) &&
      grid.grid == Stamp(rest, s, p.row + d, p.col) &&
      Counts() == c.(score := c.score + d)
    }

    /**
     * The state once a piece with shape `s` at `p` fell its drop distance
     * over board `b`, scoring 1 a row, and locked there.
     */
    ghost predicate Dropped(b: Board, s: Board, p: Position, c: Counters, kind: nat, turns: nat)
      reads this, grid, currentBlock
      requires HasCell(s)
    {
      LockedAfter(b, s, p, DropDistance(b, s, p.row, p.col), c, kind, turns)
    }

    /** The state once a piece with shape `s` at `p` fell `d` rows over board `b`, scoring 1 a row, and locked there. */
    ghost predicate LockedAfter(b: Board, s: Board, p: Position, d: nat, c: Counters, kind: nat, turns: nat)
      reads this, grid, currentBlock
    {
      AfterLock(Stamp(b, s, p.row + d, p.col), c.(score := c.score + d), p.row + d, kind, turns)
    }

    /** `Tetris.__init__`: no piece yet, zero counters, and the game starts paused. */
    constructor (grid: Grid)
      requires grid.Valid() && grid.rows >= 4 && grid.cols >= 4 && NoFullRow(grid.grid)
      ensures Valid() && this.grid == grid && currentBlock == null && !moving
      ensures Counts() == Counters(0, 0, 0, true, false, 0)
    {
      this.grid := grid;
      currentBlock := null;
      moving := false;
      score := 0;
      level := 0;
      totalLines := 0;
      pause := true;
      gameOver := false;
      holes := 0;
      rest := grid.grid;
    }

    /** `set_block`: write the piece's non-zero cells at its position, through `grid[row, col] = v`. */
    method SetBlock()
      requires currentBlock != null && grid.Valid() && IsRect(currentBlock.shape)
      requires Fits(grid.grid, currentBlock.shape, currentBlock.position.row, currentBlock.position.col)
      modifies grid
      ensures grid.Valid()
      ensures grid.grid == Stamp(old(grid.grid), currentBlock.shape, currentBlock.position.row, currentBlock.position.col)
    {
      var pos := currentBlock.position;
      var s := currentBlock.shape;
      ghost var b := grid.grid;
      PaintStart(b, s, pos.row, pos.col, false);
      for row := 0 to currentBlock.Rows()
        invariant grid.Valid() && grid.grid == Paint(b, s, pos.row, pos.col, row, 0, false)
      {
        for col := 0 to currentBlock.Cols()
          invariant grid.Valid() && grid.grid == Paint(b, s, pos.row, pos.col, row, col, false)
        {
          PaintStep(b, s, pos.row, pos.col, row, col, false);
          if s[row][col] != 0 {
            assert Covers(s, row, col);
            grid.Set(pos.row + row, pos.col + col, s[row][col]);
          }
        }
        PaintNextRow(b, s, pos.row, pos.col, row, false);
      }
    }

    /** `remove_block`: zero the piece's non-zero cells; nothing to do without a piece. */
    method RemoveBlock()
      requires grid.Valid()
      requires currentBlock != null ==>
        IsRect(currentBlock.shape) &&
        Fits(grid.grid, currentBlock.shape, currentBlock.position.row, currentBlock.position.col)
      modifies grid
      ensures grid.Valid()
      ensures currentBlock == null ==> grid.grid == old(grid.grid)
      ensures currentBlock != null ==>
        grid.grid == Erase(old(grid.grid), currentBlock.shape, currentBlock.position.row, currentBlock.position.col)
    {
      if currentBlock != null {
        var pos := currentBlock.position;
        var s := currentBlock.shape;
        ghost var b := grid.grid;
        PaintStart(b, s, pos.row, pos.col, true);
        for row := 0 to currentBlock.Rows()
          invariant grid.Valid() && grid.grid == Paint(b, s, pos.row, pos.col, row, 0, true)
        {
          for col := 0 to currentBlock.Cols()
            invariant grid.Valid() && grid.grid == Paint(b, s, pos.row, pos.col, row, col, true)
          {
            PaintStep(b, s, pos.row, pos.col, row, col, true);
            if s[row][col] != 0 {
              assert Covers(s, row, col);
              grid.Set(pos.row + row, pos.col + col, 0);
            }
          }
          PaintNextRow(b, s, pos.row, pos.col, row, true);
        }
      }
    }

    /**
     * `next_block`: the random draws are the parameters: `kind` stands for
     * `randint(0, 6)` over the seven subclasses, `turns` for `randint(0, 3)`.
     */
    method NextBlock(kind: nat, turns: nat) returns (block: Shape)
      requires kind < |Kinds| && turns <= 3
      ensures fresh(block)
      ensures block.shape == SpawnShape(Kinds[kind], turns) && block.color == ColorTag(Kinds[kind])
      ensures block.position == Position(0, SpawnCol(grid.cols, Kinds[kind]))
    {
      var k := Kinds[kind];
      TableSquare(k);
      ColoredCells(Table(k), ColorTag(k));
      block := new Shape(ColorTag(k), Table(k));
      var col := grid.cols / 2 - (|block.shape| + 1) / 2;
      block.SetPos(Position(0, col));
      block.Rotate(turns);
    }

    /** `collides`: some piece cell is off the board or on a non-empty cell. */
    method Collides() returns (hit: bool)
      requires currentBlock != null && grid.Valid() && IsRect(currentBlock.shape) && currentBlock.position.row >= 0
      ensures hit == !Free(grid.grid, currentBlock.shape, currentBlock.position.row, currentBlock.position.col)
    {
      var pos := currentBlock.position;
      var s := currentBlock.shape;
      for row := 0 to currentBlock.Rows()
        invariant forall r, c :: Covers(s, r, c) && Before(r, c, row, 0) ==>
          0 <= pos.row + r < |grid.grid| && 0 <= pos.col + c < |grid.grid[pos.row + r]| && grid.grid[pos.row + r][pos.col + c] == 0
      {
        for col := 0 to currentBlock.Cols()
          invariant forall r, c :: Covers(s, r, c) && Before(r, c, row, col) ==>
            0 <= pos.row + r < |grid.grid| && 0 <= pos.col + c < |grid.grid[pos.row + r]| && grid.grid[pos.row + r][pos.col + c] == 0
        {
          if s[row][col] != 0 {
            assert Covers(s, row, col);
            if pos.col + col < 0 || pos.col + col > grid.lastCol {
              return true;
            }
            if pos.row + row > grid.lastRow {
              return true;
            }
            if grid.Get(pos.row + row, pos.col + col) != 0 {
              return true;
            }
          }
        }
      }
      return false;
    }

    /** `remove_block` on a valid state with a piece: the board becomes the board without it. */
    method Lift()
      requires Valid() && currentBlock != null
      modifies grid
      ensures Lifted() && grid.grid == rest
      ensures Free(rest, currentBlock.shape, currentBlock.position.row, currentBlock.position.col)
    {
      var s, p := currentBlock.shape, currentBlock.position;
      StampThenEraseRestores(rest, s, p.row, p.col);
      FreeFits(rest, s, p.row, p.col);
      RemoveBlock();
    }

    /** `set_block` on a lifted state whose piece is on free cells: the state is valid again. */
    method Put()
      requires Lifted() && currentBlock.position.row >= 0
      requires Free(rest, currentBlock.shape, currentBlock.position.row, currentBlock.position.col)
      modifies grid
      ensures Valid()
      ensures grid.grid == Stamp(rest, currentBlock.shape, currentBlock.position.row, currentBlock.position.col)
    {
      FreeFits(rest, currentBlock.shape, currentBlock.position.row, currentBlock.position.col);
      SetBlock();
    }

    /** `play_pause`: toggle the pause, or start over once the game is over. */
    method PlayPause()
      requires Valid()
      modifies this, grid
      ensures moving == old(moving)
      ensures Valid()
      ensures !old(gameOver) ==>
        unchanged(grid) && currentBlock == old(currentBlock) && rest == old(rest) &&
        Counts() == old(Counts()).(pause := !old(pause))
      ensures old(gameOver) ==>
        grid.grid == Zeros(grid.rows, grid.cols) && currentBlock == null &&
        Counts() == old(Counts()).(score := 0, totalLines := 0, pause := false, gameOver := false)
    {
      if !gameOver {
        pause := !pause;
      } else {
        ResetGame();
      }
    }

    /** `reset_game`: clear the board and drop the piece; `level` and `holes` are kept. */
    method ResetGame()
      requires Valid()
      modifies this, grid
      ensures moving == old(moving)
      ensures Valid() && grid.grid == Zeros(grid.rows, grid.cols) && currentBlock == null
      ensures Counts() == old(Counts()).(score := 0, totalLines := 0, pause := false, gameOver := false)
    {
      grid.Clear();
      gameOver := false;
      pause := false;
      score := 0;
      totalLines := 0;
      currentBlock := null;
      rest := grid.grid;
      forall i | 0 <= i < grid.rows ensures !Full(grid.grid[i]) {
        assert grid.grid[i][0] == 0;
      }
    }

    /**
     * `clean_complete_rows`: the full rows are deleted, and the cleared lines
     * are counted and scored.
     */
    method CleanCompleteRows()
      requires grid.Valid() && CountFull(grid.grid) <= 4
      modifies this, grid
      ensures grid.Valid() && grid.grid == Cleared(old(grid.grid), grid.cols)
      ensures currentBlock == old(currentBlock) && moving == old(moving)
      ensures Counts() == old(Counts()).(
        score := LockScore(old(score), level, CountFull(old(grid.grid))),
        totalLines := old(totalLines) + CountFull(old(grid.grid)))
    {
      var linesCleared := DeleteFullRows();
      if linesCleared > 0 {
        totalLines := totalLines + linesCleared;
        score := score + Points(linesCleared) * (level + 1);
      }
    }

    /**
     * The scan of `clean_complete_rows`: rows top to bottom, each full one
     * deleted (which shifts the rows above it down by one and puts a zero
     * row on top); the result is the full rows gone, in order, under as many
     * zero rows.
     */
    method DeleteFullRows() returns (linesCleared: nat)
      requires grid.Valid()
      modifies grid
      ensures grid.Valid() && grid.grid == Cleared(old(grid.grid), grid.cols)
      ensures linesCleared == CountFull(old(grid.grid))
    {
      ghost var b := grid.grid;
      linesCleared := 0;
      for row := 0 to grid.rows
        invariant grid.Valid()
        invariant grid.grid == Cleared(b[..row], grid.cols) + b[row..]
        invariant linesCleared == CountFull(b[..row])
      {
        ClearStep(b, row, grid.cols);
        if 0 !in grid.Row(row) {
          linesCleared := linesCleared + 1;
          grid.DeleteRow(row);
        }
      }
      assert b[..grid.rows] == b;
    }

    /**
     * `calc_holes`: for each column of the board, the zeros below its first
     * non-zero cell.
     */
    method CalcHoles() returns (count: nat)
      requires grid.Valid()
      ensures IsRect(grid.grid) && count == Holes(grid.grid)
    {
      count := 0;
      var t := Transpose(grid.grid);
      for i := 0 to |t|
        invariant count == SumHoles(t[..i])
      {
        var row := t[i];
        ghost var before := count;
        var idx := 0;
        while idx < |row|
          invariant 0 <= idx <= |row|
          invariant count == before
          invariant ColumnHoles(row) == ColumnHoles(row[idx..])
        {
          if row[idx] != 0 {
            assert row[idx..][1..] == row[idx + 1..];
            count := count + CountZeros(row[idx + 1..]);
            break;
          }
          idx := idx + 1;
        }
        assert count == before + ColumnHoles(row);
        assert t[..i + 1][..i] == t[..i];
      }
      assert t[..|t|] == t;
    }

    /**
     * `run`, without its pause between ticks: while the game runs, spawn a
     * piece when there is none, else `move_down`.
     */
    method Run(kind: nat, turns: nat)
      requires Valid() && kind < |Kinds| && turns <= 3
      modifies this, grid, currentBlock
      ensures moving == old(moving)
      ensures Valid()
      ensures old(pause) ==> unchanged(this, grid)
      ensures old(pause) && old(currentBlock) != null ==> unchanged(old(currentBlock))
      ensures !old(pause) && old(currentBlock) == null ==>
        fresh(currentBlock) && Counts() == old(Counts()) &&
        currentBlock.shape == SpawnShape(Kinds[kind], turns) && currentBlock.color == ColorTag(Kinds[kind]) &&
        currentBlock.position == Position(0, SpawnCol(grid.cols, Kinds[kind])) &&
        grid.grid == Stamp(old(grid.grid), currentBlock.shape, 0, currentBlock.position.col)
      ensures (!old(pause) && old(currentBlock) != null &&
               Free(old(rest), old(currentBlock.shape), old(currentBlock.position.row) + 1, old(currentBlock.position.col))) ==>
        rest == old(rest) && Fallen(old(currentBlock), old(currentBlock.shape), old(currentBlock.position), 1, old(Counts()))
      ensures (!old(pause) && old(currentBlock) != null &&
               !Free(old(rest), old(currentBlock.shape), old(currentBlock.position.row) + 1, old(currentBlock.position.col))) ==>
        fresh(currentBlock) && AfterLock(old(grid.grid), old(Counts()), old(currentBlock.position.row), kind, turns)
    {
      if !pause {
        if currentBlock == null {
          Spawn(kind, turns);
        } else {
          var _ := MoveDown(kind, turns);
        }
      }
    }

    /**
     * `move_left`: the piece moves `times` columns left when the cells there
     * are free on the board without it; otherwise position and board end as
     * they were.
     */
    method MoveLeft(times: int)
      requires Valid()
      modifies grid, currentBlock
      ensures Valid() && currentBlock == old(currentBlock)
      ensures old(currentBlock) == null || old(pause) ==> unchanged(grid)
      ensures old(currentBlock) != null && old(pause) ==> unchanged(currentBlock)
      ensures old(currentBlock) != null && !old(pause) ==>
        var s, p := old(currentBlock.shape), old(currentBlock.position);
        var moved := Free(rest, s, p.row, p.col - times);
        currentBlock.shape == s && currentBlock.color == old(currentBlock.color) &&
        currentBlock.position == Position(p.row, if moved then p.col - times else p.col) &&
        grid.grid == Stamp(rest, s, p.row, currentBlock.position.col) &&
        (!moved ==> grid.grid == old(grid.grid))
    {
      if currentBlock == null || pause {
        return;
      }
      ghost var s, p := currentBlock.shape, currentBlock.position;
      assert Piece(s);
      Lift();
      label Lifted:
      currentBlock.MoveLeft(times);
      KeepLifted@Lifted();
      var hit := Collides();
      if hit {
        label Tried:
        currentBlock.MoveRight(times);
        KeepLifted@Tried();
        assert currentBlock.position == p;
      }
      Put();
    }

    /** `move_right`: as `move_left`, `times` columns to the right. */
    method MoveRight(times: int)
      requires Valid()
      modifies grid, currentBlock
      ensures Valid() && currentBlock == old(currentBlock)
      ensures old(currentBlock) == null || old(pause) ==> unchanged(grid)
      ensures old(currentBlock) != null && old(pause) ==> unchanged(currentBlock)
      ensures old(currentBlock) != null && !old(pause) ==>
        var s, p := old(currentBlock.shape), old(currentBlock.position);
        var moved := Free(rest, s, p.row, p.col + times);
        currentBlock.shape == s && currentBlock.color == old(currentBlock.color) &&
        currentBlock.position == Position(p.row, if moved then p.col + times else p.col) &&
        grid.grid == Stamp(rest, s, p.row, currentBlock.position.col) &&
        (!moved ==> grid.grid == old(grid.grid))
    {
      if currentBlock == null || pause {
        return;
      }
      ghost var s, p := currentBlock.shape, currentBlock.position;
      assert Piece(s);
      Lift();
      label Lifted:
      currentBlock.MoveRight(times);
      KeepLifted@Lifted();
      var hit := Collides();
      if hit {
        label Tried:
        currentBlock.MoveLeft(times);
        KeepLifted@Tried();
        assert currentBlock.position == p;
      }
      Put();
    }

    /**
     * `move_down`: `None` without a piece or while paused. Otherwise the
     * piece falls one row and scores 1 when the cells there are free
     * (`Some(true)`); if not, it locks where it stands and the next piece,
     * of kind `Kinds[kind]` turned `turns` times, spawns (`Some(false)`).
     */
    method MoveDown(kind: nat, turns: nat) returns (r: Option<bool>)
      requires Valid() && kind < |Kinds| && turns <= 3
      modifies this, grid, currentBlock
      ensures moving == old(moving)
      ensures Valid()
      ensures old(currentBlock) == null || old(pause) ==> r == None && unchanged(this, grid)
      ensures old(currentBlock) != null && old(pause) ==> unchanged(old(currentBlock))
      ensures old(currentBlock) != null && !old(pause) ==>
        r.Some? &&
        (r.value <==> Free(old(rest), old(currentBlock.shape), old(currentBlock.position.row) + 1, old(currentBlock.position.col)))
      ensures r == Some(true) ==>
        currentBlock != null && rest == old(rest) && currentBlock.color == old(currentBlock.color) &&
        Fallen(old(currentBlock), old(currentBlock.shape), old(currentBlock.position), 1, old(Counts()))
      ensures r == Some(false) ==>
        fresh(currentBlock) && AfterLock(old(grid.grid), old(Counts()), old(currentBlock.position.row), kind, turns)
    {
      if currentBlock == null || pause {
        return None;
      }
      var fell := Fall();
      if !fell {
        Settle(kind, turns);
      }
      return Some(fell);
    }

    /**
     * The first steps of `move_down` on a piece: lift it, move it down a
     * row and test. On a collision it moves back up and is stamped where it
     * was (`false`); otherwise it is stamped a row lower and scores 1 (`true`).
     */
    method Fall() returns (fell: bool)
      requires Valid() && currentBlock != null
      modifies this, grid, currentBlock
      ensures moving == old(moving)
      ensures Valid() && currentBlock == old(currentBlock) && rest == old(rest)
      ensures currentBlock.color == old(currentBlock.color)
      ensures fell == Free(old(rest), old(currentBlock.shape), old(currentBlock.position.row) + 1, old(currentBlock.position.col))
      ensures fell ==> Fallen(old(currentBlock), old(currentBlock.shape), old(currentBlock.position), 1, old(Counts()))
      ensures !fell ==>
        grid.grid == old(grid.grid) && Counts() == old(Counts()) &&
        currentBlock.shape == old(currentBlock.shape) && currentBlock.position == old(currentBlock.position)
    {
      ghost var p := currentBlock.position;
      var hit := Probe();
      if hit {
        currentBlock.MoveUp();
        assert currentBlock.position == p;
        Put();
        return false;
      }
      Put();
      score := score + 1;
      FellOne();
      return true;
    }

    /** A piece stamped one row lower on free cells, the score one higher: it fell one row. */
    twostate lemma FellOne()
      requires old(currentBlock) != null && currentBlock == old(currentBlock) && rest == old(rest)
      requires currentBlock.shape == old(currentBlock.shape)
      requires currentBlock.position == Position(old(currentBlock.position.row) + 1, old(currentBlock.position.col))
      requires Free(rest, currentBlock.shape, currentBlock.position.row, currentBlock.position.col)
      requires grid.grid == Stamp(rest, currentBlock.shape, currentBlock.position.row, currentBlock.position.col)
      requires Counts() == old(Counts()).(score := old(score) + 1)
      ensures Fallen(old(currentBlock), old(currentBlock.shape), old(currentBlock.position), 1, old(Counts()))
    {
    }

    /** The test of `move_down`: lift the piece, move it down a row and look for a collision there. */
    method Probe() returns (hit: bool)
      requires Valid() && currentBlock != null
      modifies grid, currentBlock
      ensures Lifted() && currentBlock == old(currentBlock) && grid.grid == rest
      ensures currentBlock.shape == old(currentBlock.shape) && currentBlock.color == old(currentBlock.color)
      ensures currentBlock.position == Position(old(currentBlock.position.row) + 1, old(currentBlock.position.col))
      ensures hit == !Free(rest, currentBlock.shape, currentBlock.position.row, currentBlock.position.col)
      ensures Free(rest, currentBlock.shape, old(currentBlock.position.row), old(currentBlock.position.col))
    {
      Lift();
      currentBlock.MoveDown();
      hit := Collides();
    }

    /**
     * The lock branch of `move_down`, with the piece back in place: game
     * over if it stands in the top row, full rows cleared, holes recounted,
     * and the next piece spawned and stamped without a collision test.
     */
    method Settle(kind: nat, turns: nat)
      requires Valid() && currentBlock != null && kind < |Kinds| && turns <= 3
      modifies this, grid
      ensures moving == old(moving)
      ensures Valid() && fresh(currentBlock)
      ensures AfterLock(old(grid.grid), old(Counts()), old(currentBlock.position.row), kind, turns)
    {
      ghost var locked, c, row := grid.grid, Counts(), currentBlock.position.row;
      StampFullRows(rest, currentBlock.shape, currentBlock.position.row, currentBlock.position.col);
      Lock();
      ClearedGrid(locked, grid.rows, grid.cols);
      Spawn(kind, turns);
      LockedThenSpawned(locked, c, row, kind, turns);
    }

    /** The counters after the lock and the piece spawned over the cleared board make up `AfterLock`. */
    lemma LockedThenSpawned(locked: Board, c: Counters, lockRow: int, kind: nat, turns: nat)
      requires kind < |Kinds| && grid.cols > 0 && IsGrid(locked, grid.rows, grid.cols) && CountFull(locked) <= 4
      requires (ClearedGrid(locked, grid.rows, grid.cols);
                Counts() == Counters(LockScore(c.score, c.level, CountFull(locked)), c.level, c.totalLines + CountFull(locked),
                                     c.pause, c.gameOver || lockRow <= 0, Holes(Cleared(locked, grid.cols))))
      requires Spawned(Cleared(locked, grid.cols), kind, turns)
      ensures AfterLock(locked, c, lockRow, kind, turns)
    {
    }

    /**
     * The locking steps of `move_down`'s collision branch: game over if the
     * piece stands in the top row, full rows cleared and scored, no piece,
     * holes recounted.
     */
    method Lock()
      requires grid.Valid() && grid.cols > 0 && currentBlock != null && CountFull(grid.grid) <= 4
      modifies this, grid
      ensures moving == old(moving)
      ensures grid.Valid() && currentBlock == null
      ensures grid.grid == Cleared(old(grid.grid), grid.cols) && NoFullRow(grid.grid)
      ensures Counts() == Counters(LockScore(old(score), old(level), CountFull(old(grid.grid))), old(level),
        old(totalLines) + CountFull(old(grid.grid)), old(pause), old(gameOver) || old(currentBlock.position.row) <= 0,
        Holes(Cleared(old(grid.grid), grid.cols)))
    {
      if currentBlock.position.row <= 0 {
        gameOver := true;
      }
      ghost var locked := grid.grid;
      CleanCompleteRows();
      ClearedGrid(locked, grid.rows, grid.cols);
      currentBlock := null;
      holes := CalcHoles();
    }

    /**
     * `self.current_block = self.next_block()` then `set_block()`: the new
     * piece is stamped at the top centre over whatever is there, without a
     * collision test.
     */
    method Spawn(kind: nat, turns: nat)
      requires grid.Valid() && grid.rows >= 4 && grid.cols >= 4 && NoFullRow(grid.grid)
      requires kind < |Kinds| && turns <= 3
      modifies this, grid
      ensures moving == old(moving)
      ensures Valid() && fresh(currentBlock) && Counts() == old(Counts())
      ensures Spawned(old(grid.grid), kind, turns)
    {
      ghost var c, cnt := grid.grid, Counts();
      var block := NextBlock(kind, turns);
      currentBlock := block;
      assert Counts() == cnt;
      SpawnOnto(c, grid.rows, grid.cols, Kinds[kind], turns);
      SetBlock();
      rest := Erase(c, block.shape, 0, block.position.col);
      assert Counts() == cnt;
      SpawnedIsValid(c, kind, turns);
    }

    /** A piece spawned over a board without full rows leaves the engine valid. */
    lemma SpawnedIsValid(c: Board, kind: nat, turns: nat)
      requires grid.Valid() && grid.rows >= 4 && grid.cols >= 4 && IsGrid(c, grid.rows, grid.cols) && NoFullRow(c)
      requires Spawned(c, kind, turns)
      ensures Valid()
    {
      SpawnOnto(c, grid.rows, grid.cols, Kinds[kind], turns);
    }

    /**
     * `move_bottom`: `move_down` until it reports no fall. A running piece
     * falls its drop distance, scoring 1 a row, and locks there.
     */
    method MoveBottom(kind: nat, turns: nat)
      requires Valid() && kind < |Kinds| && turns <= 3
      modifies this, grid, currentBlock
      ensures moving == old(moving)
      ensures Valid()
      ensures old(currentBlock) == null || old(pause) ==> unchanged(this, grid)
      ensures old(currentBlock) != null && old(pause) ==> unchanged(old(currentBlock))
      ensures old(currentBlock) != null && !old(pause) ==>
        fresh(currentBlock) && Dropped(old(rest), old(currentBlock.shape), old(currentBlock.position), old(Counts()), kind, turns)
    {
      if currentBlock == null || pause {
        return;
      }
      ghost var c, rest0 := Counts(), rest;
      ghost var s, p := currentBlock.shape, currentBlock.position;
      FallToRest();
      ghost var d := DropDistance(rest0, s, p.row, p.col);
      Settle(kind, turns);
      assert LockedAfter(rest0, s, p, d, c, kind, turns);
    }

    /** The `move_down` calls of `move_bottom` that report a fall: the piece falls its drop distance. */
    method FallToRest()
      requires Valid() && currentBlock != null
      modifies this, grid, currentBlock
      ensures moving == old(moving)
      ensures Valid() && currentBlock == old(currentBlock) && rest == old(rest) && HasCell(old(currentBlock.shape))
      ensures Fallen(old(currentBlock), old(currentBlock.shape), old(currentBlock.position),
        DropDistance(old(rest), old(currentBlock.shape), old(currentBlock.position.row), old(currentBlock.position.col)),
        old(Counts()))
    {
      ghost var block, c, rest0 := currentBlock, Counts(), rest;
      ghost var s, p := currentBlock.shape, currentBlock.position;
      ghost var d := 0;
      FallingStart(block, s, p, c, rest0);
      var fell := FallOnce(block, s, p, d, c, rest0);
      while fell
        invariant fell ==> Falling(block, s, p, d + 1, c, rest0)
        invariant !fell ==> Falling(block, s, p, d, c, rest0)
        invariant fell == Free(rest0, s, p.row + d + 1, p.col)
        invariant moving == old(moving)
        decreases |rest0| - (p.row + d)
      {
        d := d + 1;
        fell := FallOnce(block, s, p, d, c, rest0);
      }
      FallingEnd(block, s, p, d, c, rest0);
    }

    /** Before the first `move_down`, a valid engine's piece has fallen 0 rows. */
    lemma FallingStart(block: Shape, s: Board, p: Position, c: Counters, b: Board)
      requires Valid() && currentBlock == block
      requires block.shape == s && block.position == p && Counts() == c && rest == b
      ensures Falling(block, s, p, 0, c, b)
    {
      FreeRowBound(b, s, p.row, p.col);
    }

    /** Once the next row down is blocked, the piece has fallen its drop distance. */
    lemma FallingEnd(block: Shape, s: Board, p: Position, d: nat, c: Counters, b: Board)
      requires Falling(block, s, p, d, c, b) && !Free(b, s, p.row + d + 1, p.col)
      ensures Valid() && rest == b && HasCell(s)
      ensures Fallen(block, s, p, DropDistance(b, s, p.row, p.col), c)
    {
      DropDistanceIs(b, s, p.row, p.col, d);
    }

    /** The loop state of `move_bottom`: a valid engine whose piece fell `d` rows over `b`. */
    ghost predicate Falling(block: Shape, s: Board, p: Position, d: nat, c: Counters, b: Board)
      reads this, grid, currentBlock, block
    {
      Valid() && rest == b && Piece(s) && Fallen(block, s, p, d, c) && p.row + d < |b|
    }

    /** One `move_down` of `move_bottom`, after `d` rows of fall. */
    method FallOnce(ghost block: Shape, ghost s: Board, ghost p: Position, ghost d: nat, ghost c: Counters, ghost b: Board)
      returns (fell: bool)
      requires Falling(block, s, p, d, c, b)
      modifies this, grid, currentBlock
      ensures moving == old(moving)
      ensures fell == Free(b, s, p.row + d + 1, p.col)
      ensures fell ==> Falling(block, s, p, d + 1, c, b)
      ensures !fell ==> Falling(block, s, p, d, c, b)
    {
      fell := Fall();
      FallingAfter(block, s, p, d, c, b, fell);
    }

    /** What one `move_down` step of `move_bottom` does to the loop state. */
    lemma FallingAfter(block: Shape, s: Board, p: Position, d: nat, c: Counters, b: Board, fell: bool)
      requires Piece(s) && p.row + d < |b| && forall r :: p.row < r <= p.row + d ==> Free(b, s, r, p.col)
      requires Valid() && currentBlock == block && rest == b
      requires fell == Free(b, s, p.row + d + 1, p.col)
      requires fell ==> Fallen(block, s, Position(p.row + d, p.col), 1, c.(score := c.score + d))
      requires !fell ==> Fallen(block, s, p, d, c)
      ensures fell == Free(b, s, p.row + d + 1, p.col)
      ensures fell ==> Falling(block, s, p, d + 1, c, b)
      ensures !fell ==> Falling(block, s, p, d, c, b)
    {
      if fell {
        FreeRowBound(rest, s, p.row + d + 1, p.col);
        FallenStep(block, s, p, d, c, Position(p.row + d, p.col), c.(score := c.score + d));
      }
    }

    /** One more row of fall on top of `d`: the rows compose and the scores add. */
    lemma FallenStep(block: Shape, s: Board, p: Position, d: nat, c: Counters, q: Position, c1: Counters)
      requires q == Position(p.row + d, p.col) && c1 == c.(score := c.score + d)
      requires forall r :: p.row < r <= p.row + d ==> Free(rest, s, r, p.col)
      requires Fallen(block, s, q, 1, c1)
      ensures Fallen(block, s, p, d + 1, c)
    {
    }

    /**
     * `rotate`, corrected: a quarter turn clockwise, nudged right from the
     * left wall or left from the right wall by at most the piece's width
     * until the cells are free; when that fails the turn and the nudges are
     * undone.
     */
    method Rotate()
      requires Valid()
      modifies grid, currentBlock
      ensures Valid() && currentBlock == old(currentBlock)
      ensures old(currentBlock) == null || old(pause) ==> unchanged(grid)
      ensures old(currentBlock) != null && old(pause) ==> unchanged(currentBlock)
      ensures old(currentBlock) != null && !old(pause) ==>
        var s, p := old(currentBlock.shape), old(currentBlock.position);
        var r := Rotated(rest, s, p.row, p.col, grid.lastCol);
        currentBlock.shape == r.0 && currentBlock.color == old(currentBlock.color) &&
        currentBlock.position == Position(p.row, r.1) &&
        grid.grid == Stamp(rest, r.0, p.row, r.1)
    {
      if currentBlock == null || pause {
        return;
      }
      ghost var s := currentBlock.shape;
      var p := currentBlock.position;
      assert Piece(s);
      TurnLifted();
      label Turned:
      var hit := Kick();
      KeepLifted@Turned();
      RotatedIs(rest, s, p.row, p.col, grid.lastCol, currentBlock.position.col, hit);
      if hit {
        ThreeTurnsUndoOne(s);
        label Kicked:
        currentBlock.Rotate(3);
        currentBlock.SetPos(p);
        KeepLifted@Kicked();
      }
      Put();
    }

    /** The first steps of `rotate` on a piece: lift it and turn it a quarter clockwise. */
    method TurnLifted()
      requires Valid() && currentBlock != null
      modifies grid, currentBlock
      ensures Lifted() && currentBlock == old(currentBlock) && grid.grid == rest
      ensures Free(rest, old(currentBlock.shape), old(currentBlock.position.row), old(currentBlock.position.col))
      ensures currentBlock.shape == Turn(old(currentBlock.shape)) && currentBlock.color == old(currentBlock.color)
      ensures currentBlock.position == old(currentBlock.position) && currentBlock.position.row >= 0
    {
      ghost var s := currentBlock.shape;
      Lift();
      currentBlock.Rotate(1);
      TurnHasCell(s, |s|);
    }

    /**
     * The nudges of `rotate` on the lifted, turned piece: right while it
     * collides at or left of column 0, left while it still collides and its
     * box reaches `last_col`; then the test of the cells it covers.
     */
    method Kick() returns (hit: bool)
      requires Lifted() && currentBlock.position.row >= 0
      modifies currentBlock
      ensures currentBlock.shape == old(currentBlock.shape) && currentBlock.color == old(currentBlock.color)
      ensures currentBlock.position == Position(old(currentBlock.position.row),
        Kicked(rest, currentBlock.shape, old(currentBlock.position.row), old(currentBlock.position.col), grid.lastCol))
      ensures hit == !Free(rest, currentBlock.shape, currentBlock.position.row, currentBlock.position.col)
    {
      var p := currentBlock.position;
      hit := Collides();
      if hit && currentBlock.position.col <= 0 {
        NudgeRight();
      }
      hit := Collides();
      if hit && currentBlock.position.col + currentBlock.Cols() >= grid.lastCol {
        NudgeLeft();
      }
      assert currentBlock.position.col == Kicked(rest, currentBlock.shape, p.row, p.col, grid.lastCol);
      hit := Collides();
    }

    /** Moving or turning the lifted piece into another piece shape keeps the state lifted. */
    twostate lemma KeepLifted()
      requires old(Lifted()) && unchanged(this, grid) && Piece(currentBlock.shape)
      ensures Lifted()
    {
    }

    /** The first loop of `rotate`: step right, at most the piece's width, until the cells are free. */
    method NudgeRight()
      requires currentBlock != null && grid.Valid() && IsRect(currentBlock.shape) && |currentBlock.shape| > 0
      requires currentBlock.position.row >= 0
      modifies currentBlock
      ensures currentBlock.shape == old(currentBlock.shape) && currentBlock.color == old(currentBlock.color)
      ensures currentBlock.position == Position(old(currentBlock.position.row),
        KickRight(grid.grid, currentBlock.shape, old(currentBlock.position.row), old(currentBlock.position.col), |currentBlock.shape[0]|))
    {
      var n := currentBlock.Cols();
      ghost var s, p := currentBlock.shape, currentBlock.position;
      for i := 0 to n
        invariant currentBlock.shape == s && currentBlock.color == old(currentBlock.color)
        invariant currentBlock.position == Position(p.row, p.col + i)
        invariant KickRight(grid.grid, s, p.row, p.col, n) == KickRight(grid.grid, s, p.row, p.col + i, n - i)
      {
        currentBlock.MoveRight(1);
        var hit := Collides();
        if !hit {
          return;
        }
      }
    }

    /** The second loop of `rotate`: step left, at most the piece's width, until the cells are free. */
    method NudgeLeft()
      requires currentBlock != null && grid.Valid() && IsRect(currentBlock.shape) && |currentBlock.shape| > 0
      requires currentBlock.position.row >= 0
      modifies currentBlock
      ensures currentBlock.shape == old(currentBlock.shape) && currentBlock.color == old(currentBlock.color)
      ensures currentBlock.position == Position(old(currentBlock.position.row),
        KickLeft(grid.grid, currentBlock.shape, old(currentBlock.position.row), old(currentBlock.position.col), |currentBlock.shape[0]|))
    {
      var n := currentBlock.Cols();
      ghost var s, p := currentBlock.shape, currentBlock.position;
      for i := 0 to n
        invariant currentBlock.shape == s && currentBlock.color == old(currentBlock.color)
        invariant currentBlock.position == Position(p.row, p.col - i)
        invariant KickLeft(grid.grid, s, p.row, p.col, n) == KickLeft(grid.grid, s, p.row, p.col - i, n - i)
      {
        currentBlock.MoveLeft(1);
        var hit := Collides();
        if !hit {
          return;
        }
      }
    }
  }
}
