/**
 * `tetris/grid.py`: the board of the newer engine. Besides the matrix it
 * knows how to stamp a piece (`set_block`), erase it (`remove_block`) and
 * classify where a piece would collide (`collides`).
 */
module Board {
  import opened Wrappers
  import opened Matrix
  import opened Footprint
  import opened Blocks

  /** The `Collision` enumeration: `LEFT_WALL = 1` .. `BLOCK = 4`. */
  datatype Collision = LeftWall | RightWall | Floor | Block

  /** The enumeration value of each kind. */
  function Value(k: Collision): (v: int)
    ensures 1 <= v <= 4
  {
    match k
    case LeftWall => 1
    case RightWall => 2
    case Floor => 3
    case Block => 4
  }

  /** Python list indexing: a negative index counts from the end. */
  function At(s: seq<seq<int>>, i: int): seq<int>
    requires -|s| <= i < |s|
  {
    if i < 0 then s[|s| + i] else s[i]
  }

  /**
   * The tests `collides` makes for one piece cell landing on board cell
   * `(r, c)`, in the order it makes them. A row below 0 is not tested: the
   * board read then wraps to a row counted from the bottom.
   */
  function CellCollision(b: Board, rows: nat, cols: nat, r: int, c: int): (k: Option<Collision>)
    requires IsGrid(b, rows, cols) && r + rows >= 0
    ensures k == None <==> 0 <= c < cols && r < rows && At(b, r)[c] == 0
    ensures r >= 0 ==> (k == None <==> 0 <= r < |b| && 0 <= c < |b[r]| && b[r][c] == 0)
  {
    if c < 0 then Some(LeftWall)
    else if c > cols - 1 then Some(RightWall)
    else if r > rows - 1 then Some(Floor)
    else if At(b, r)[c] != 0 then Some(Block)
    else None
  }

  /** No piece cell fails any of the tests. */
  ghost predicate NoCollision(b: Board, rows: nat, cols: nat, s: Board, row: int, col: int)
    requires IsGrid(b, rows, cols) && row + rows >= 0
  {
    forall r, c :: Covers(s, r, c) ==> CellCollision(b, rows, cols, row + r, col + c) == None
  }

  /**
   * `k` is what the first failing piece cell, in row-major order over the
   * shape, reports: every piece cell before it passes.
   */
  ghost predicate FirstHit(b: Board, rows: nat, cols: nat, s: Board, row: int, col: int, k: Collision)
    requires IsGrid(b, rows, cols) && row + rows >= 0
  {
    exists r, c :: Covers(s, r, c) && CellCollision(b, rows, cols, row + r, col + c) == Some(k) &&
      forall r', c' :: Covers(s, r', c') && Before(r', c', r, c) ==> CellCollision(b, rows, cols, row + r', col + c') == None
  }

  /** The first failing cell, given as a witness. */
  lemma HitHere(b: Board, rows: nat, cols: nat, s: Board, row: int, col: int, r: int, c: int, k: Collision)
    requires IsGrid(b, rows, cols) && row + rows >= 0 && Covers(s, r, c)
    requires CellCollision(b, rows, cols, row + r, col + c) == Some(k)
    requires forall r', c' :: Covers(s, r', c') && Before(r', c', r, c) ==> CellCollision(b, rows, cols, row + r', col + c') == None
    ensures FirstHit(b, rows, cols, s, row, col, k)
  {
  }

  /** With the piece at a row of 0 or more, passing every test is landing on empty board cells. */
  lemma NoCollisionIsFree(b: Board, rows: nat, cols: nat, s: Board, row: int, col: int)
    requires IsGrid(b, rows, cols) && row >= 0
    ensures NoCollision(b, rows, cols, s, row, col) <==> Free(b, s, row, col)
  {
    if NoCollision(b, rows, cols, s, row, col) {
      forall r, c | Covers(s, r, c)
        ensures 0 <= row + r < |b| && 0 <= col + c < |b[row + r]| && b[row + r][col + c] == 0
      {
        assert CellCollision(b, rows, cols, row + r, col + c) == None;
      }
    }
    if Free(b, s, row, col) {
      forall r, c | Covers(s, r, c) ensures CellCollision(b, rows, cols, row + r, col + c) == None {
        assert 0 <= row + r < |b| && 0 <= col + c < |b[row + r]| && b[row + r][col + c] == 0;
      }
    }
  }

  /** The answer `collides` gives is determined: two first hits are the same kind. */
  lemma FirstHitUnique(b: Board, rows: nat, cols: nat, s: Board, row: int, col: int, k1: Collision, k2: Collision)
    requires IsGrid(b, rows, cols) && row + rows >= 0
    requires FirstHit(b, rows, cols, s, row, col, k1) && FirstHit(b, rows, cols, s, row, col, k2)
    ensures k1 == k2
  {
    var r1, c1 :| Covers(s, r1, c1) && CellCollision(b, rows, cols, row + r1, col + c1) == Some(k1) &&
      forall r', c' :: Covers(s, r', c') && Before(r', c', r1, c1) ==> CellCollision(b, rows, cols, row + r', col + c') == None;
    var r2, c2 :| Covers(s, r2, c2) && CellCollision(b, rows, cols, row + r2, col + c2) == Some(k2) &&
      forall r', c' :: Covers(s, r', c') && Before(r', c', r2, c2) ==> CellCollision(b, rows, cols, row + r', col + c') == None;
    HitNotBefore(b, rows, cols, s, row, col, r1, c1, k1, r2, c2);
    HitNotBefore(b, rows, cols, s, row, col, r2, c2, k2, r1, c1);
  }

  /** A failing cell does not come before a cell all of whose predecessors pass. */
  lemma HitNotBefore(b: Board, rows: nat, cols: nat, s: Board, row: int, col: int, r: int, c: int, k: Collision, dr: int, dc: int)
    requires IsGrid(b, rows, cols) && row + rows >= 0 && Covers(s, r, c)
    requires CellCollision(b, rows, cols, row + r, col + c) == Some(k)
    requires forall r', c' :: Covers(s, r', c') && Before(r', c', dr, dc) ==> CellCollision(b, rows, cols, row + r', col + c') == None
    ensures !Before(r, c, dr, dc)
  {
  }

  /**
   * Precedence across cells: a domino `[[1, 1]]` one column off the left
   * wall, whose second cell lies on a settled cell, reports the wall, since
   * its first cell is tested first.
   */
  lemma WallBeforeBlock(k: Collision)
    requires FirstHit([[1, 0], [0, 0]], 2, 2, [[1, 1]], 0, -1, k)
    ensures k == LeftWall
  {
    var b: Board := [[1, 0], [0, 0]];
    var s: Board := [[1, 1]];
    assert Covers(s, 0, 0) && CellCollision(b, 2, 2, 0, -1) == Some(LeftWall);
  }

  /** A row index below 0 is not caught: the piece reads the board's bottom row instead. */
  lemma NegativeRowWraps()
    ensures NoCollision([[0, 0], [1, 1]], 2, 2, [[1]], -2, 0)
    ensures !NoCollision([[0, 0], [1, 1]], 2, 2, [[1]], -1, 0)
    ensures FirstHit([[0, 0], [1, 1]], 2, 2, [[1]], -1, 0, Block)
  {
    var b: Board := [[0, 0], [1, 1]];
    var s: Board := [[1]];
    assert CellCollision(b, 2, 2, -1, 0) == Some(Block);
    forall r, c | Covers(s, r, c) ensures CellCollision(b, 2, 2, -2 + r, c) == None {
      assert r == 0 && c == 0;
    }
    assert Covers(s, 0, 0);
  }

  class Grid {
    const rows: nat
    const cols: nat
    const lastRow: int
    const lastCol: int
    var grid: Board

    ghost predicate Valid()
      reads this
    {
      lastRow == rows - 1 && lastCol == cols - 1 && IsGrid(grid, rows, cols)
    }

    /** `Grid.__init__`: keep the size, derive the last indices, and reset the board. */
    constructor (rows: nat, cols: nat)
      ensures Valid() && this.rows == rows && this.cols == cols
      ensures grid == Zeros(rows, cols)
    {
      this.rows := rows;
      this.cols := cols;
      lastRow := rows - 1;
      lastCol := cols - 1;
      new;
      Reset();
    }

    /** `create`: a `rows` by `cols` board of zeros. */
    function Create(): (g: Board)
      ensures IsGrid(g, rows, cols)
      ensures forall i, j :: 0 <= i < rows && 0 <= j < cols ==> g[i][j] == 0
    {
      seq(rows, _ => seq(cols, _ => 0))
    }

    /** `reset`. */
    method Reset()
      modifies this
      ensures grid == Zeros(rows, cols)
    {
      grid := Create();
      assert grid == Zeros(rows, cols);
    }

    /** `get(row, col)`. */
    function Get(row: int, col: int): int
      reads this
      requires Valid() && 0 <= row < rows && 0 <= col < cols
    {
      grid[row][col]
    }

    /** `grid[row]`: the row itself. */
    function Row(row: int): (r: seq<int>)
      reads this
      requires Valid() && 0 <= row < rows
      ensures |r| == cols && forall col :: 0 <= col < cols ==> r[col] == Get(row, col)
    {
      grid[row]
    }

    /** `grid[row, col] = value`: exactly one cell changes. */
    method Set(row: int, col: int, value: int)
      requires Valid() && 0 <= row < rows && 0 <= col < cols
      modifies this
      ensures Valid() && grid == Updated(old(grid), row, col, value)
    {
      grid := grid[row := grid[row][col := value]];
    }

    /** `delete_row(row)`: pop the row, then insert a zero row at the top. */
    method DeleteRow(row: int)
      requires Valid() && 0 <= row < rows
      modifies this
      ensures Valid() && grid == Matrix.DeleteRow(old(grid), row, cols)
    {
      var rest := grid[..row] + grid[row + 1..];
      grid := [ZeroRow(cols)] + rest;
      DeleteRowIsGrid(old(grid), row, rows, cols);
    }

    /** `set_block`: write the piece's non-zero cells at its position. */
    method SetBlock(block: Tetrimino)
      requires Valid() && block.Valid() && Fits(grid, block.shape, block.row, block.col)
      modifies this
      ensures Valid() && grid == Stamp(old(grid), block.shape, block.row, block.col)
    {
      ghost var b := grid;
      var s := block.shape;
      PaintStart(b, s, block.row, block.col, false);
      for row := 0 to block.height
        invariant grid == Paint(b, s, block.row, block.col, row, 0, false)
      {
        for col := 0 to block.width
          invariant grid == Paint(b, s, block.row, block.col, row, col, false)
        {
          PaintStep(b, s, block.row, block.col, row, col, false);
          if s[row][col] != 0 {
            grid := grid[block.row + row := grid[block.row + row][block.col + col := s[row][col]]];
          }
        }
        PaintNextRow(b, s, block.row, block.col, row, false);
      }
      PaintIsGrid(b, s, block.row, block.col, |s|, 0, false, rows, cols);
    }

    /** `remove_block`: zero the piece's non-zero cells at its position. */
    method RemoveBlock(block: Tetrimino)
      requires Valid() && block.Valid() && Fits(grid, block.shape, block.row, block.col)
      modifies this
      ensures Valid() && grid == Erase(old(grid), block.shape, block.row, block.col)
    {
      ghost var b := grid;
      var s := block.shape;
      PaintStart(b, s, block.row, block.col, true);
      for row := 0 to block.height
        invariant grid == Paint(b, s, block.row, block.col, row, 0, true)
      {
        for col := 0 to block.width
          invariant grid == Paint(b, s, block.row, block.col, row, col, true)
        {
          PaintStep(b, s, block.row, block.col, row, col, true);
          if s[row][col] != 0 {
            grid := grid[block.row + row := grid[block.row + row][block.col + col := 0]];
          }
        }
        PaintNextRow(b, s, block.row, block.col, row, true);
      }
      PaintIsGrid(b, s, block.row, block.col, |s|, 0, true, rows, cols);
    }

    /**
     * `collides`: `None` (the source's `False`) when every piece cell passes
     * the wall, floor and occupancy tests; otherwise the kind the first
     * failing cell reports. For a piece at a row of 0 or more, `None` means
     * the piece lands on empty board cells.
     */
    method Collides(block: Tetrimino) returns (k: Option<Collision>)
      requires Valid() && block.Valid() && block.row + rows >= 0
      ensures k == None <==> NoCollision(grid, rows, cols, block.shape, block.row, block.col)
      ensures block.row >= 0 ==> (k == None <==> Free(grid, block.shape, block.row, block.col))
      ensures k.Some? ==> FirstHit(grid, rows, cols, block.shape, block.row, block.col, k.value)
    {
      var s := block.shape;
      for row := 0 to block.height
        invariant forall r, c :: Covers(s, r, c) && Before(r, c, row, 0) ==>
          CellCollision(grid, rows, cols, block.row + r, block.col + c) == None
      {
        for col := 0 to block.width
          invariant forall r, c :: Covers(s, r, c) && Before(r, c, row, col) ==>
            CellCollision(grid, rows, cols, block.row + r, block.col + c) == None
        {
          if s[row][col] != 0 {
            var hit: Option<Collision> := None;
            if block.col + col < 0 {
              hit := Some(LeftWall);
            } else if block.col + col > lastCol {
              hit := Some(RightWall);
            } else if block.row + row > lastRow {
              hit := Some(Floor);
            } else if At(grid, block.row + row)[block.col + col] != 0 {
              hit := Some(Block);
            }
            assert hit == CellCollision(grid, rows, cols, block.row + row, block.col + col);
            if hit.Some? {
              HitHere(grid, rows, cols, s, block.row, block.col, row, col, hit.value);
              k := hit;
              if block.row >= 0 {
                NoCollisionIsFree(grid, rows, cols, s, block.row, block.col);
              }
              return;
            }
          }
        }
      }
      k := None;
      if block.row >= 0 {
        NoCollisionIsFree(grid, rows, cols, s, block.row, block.col);
      }
    }
  }
}
