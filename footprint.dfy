/**
 * A piece's footprint on a board: the non-zero cells of its shape matrix,
 * anchored at (row, col). `set_block` stamps the footprint, `remove_block`
 * erases it, and collision tests ask whether it fits on empty cells. Both
 * board classes and both engines are specified in these terms.
 */
module Footprint {
  import opened Matrix

  /** Cell `(r, c)` of shape `s` belongs to the piece. */
  predicate Covers(s: Board, r: int, c: int) {
    0 <= r < |s| && 0 <= c < |s[r]| && s[r][c] != 0
  }

  /** Every piece cell lands on the board. */
  ghost predicate Fits(b: Board, s: Board, row: int, col: int) {
    forall r, c :: Covers(s, r, c) ==> 0 <= row + r < |b| && 0 <= col + c < |b[row + r]|
  }

  /** Every piece cell lands on an empty cell of the board. */
  ghost predicate Free(b: Board, s: Board, row: int, col: int) {
    forall r, c :: Covers(s, r, c) ==> 0 <= row + r < |b| && 0 <= col + c < |b[row + r]| && b[row + r][col + c] == 0
  }

  /** The board holds the piece's tags at every piece cell. */
  ghost predicate Stamped(b: Board, s: Board, row: int, col: int) {
    forall r, c :: Covers(s, r, c) ==> 0 <= row + r < |b| && 0 <= col + c < |b[row + r]| && b[row + r][col + c] == s[r][c]
  }

  /** Shape cell `(r, c)` comes before `(dr, dc)` in row-major order. */
  predicate Before(r: int, c: int, dr: int, dc: int) {
    r < dr || (r == dr && c < dc)
  }

  /**
   * Cell `(i, j)` once the piece cells before `(dr, dc)` in row-major order
   * are written: with their tags (`erase` false) or with 0 (`erase` true).
   */
  function PaintCell(b: Board, s: Board, row: int, col: int, dr: int, dc: int, erase: bool, i: int, j: int): int
    requires 0 <= i < |b| && 0 <= j < |b[i]|
  {
    if Covers(s, i - row, j - col) && Before(i - row, j - col, dr, dc)
    then (if erase then 0 else s[i - row][j - col])
    else b[i][j]
  }

  /** The first `n` cells of painted row `i`. */
  function PaintRow(b: Board, s: Board, row: int, col: int, dr: int, dc: int, erase: bool, i: int, n: nat): (r: seq<int>)
    requires 0 <= i < |b| && n <= |b[i]|
    ensures |r| == n
  {
    if n == 0 then [] else PaintRow(b, s, row, col, dr, dc, erase, i, n - 1) + [PaintCell(b, s, row, col, dr, dc, erase, i, n - 1)]
  }

  /** The first `n` painted rows. */
  function PaintRows(b: Board, s: Board, row: int, col: int, dr: int, dc: int, erase: bool, n: nat): (p: Board)
    requires n <= |b|
    ensures |p| == n && forall i :: 0 <= i < n ==> |p[i]| == |b[i]|
  {
    if n == 0 then [] else PaintRows(b, s, row, col, dr, dc, erase, n - 1) + [PaintRow(b, s, row, col, dr, dc, erase, n - 1, |b[n - 1]|)]
  }

  /** The board after the piece cells before `(dr, dc)` in row-major order are written. */
  function Paint(b: Board, s: Board, row: int, col: int, dr: int, dc: int, erase: bool): (p: Board)
    ensures |p| == |b| && forall i :: 0 <= i < |b| ==> |p[i]| == |b[i]|
  {
    PaintRows(b, s, row, col, dr, dc, erase, |b|)
  }

  lemma {:induction false} PaintRowAt(b: Board, s: Board, row: int, col: int, dr: int, dc: int, erase: bool, i: int, n: nat)
    requires 0 <= i < |b| && n <= |b[i]|
    ensures forall j :: 0 <= j < n ==> PaintRow(b, s, row, col, dr, dc, erase, i, n)[j] == PaintCell(b, s, row, col, dr, dc, erase, i, j)
  {
    if n > 0 {
      PaintRowAt(b, s, row, col, dr, dc, erase, i, n - 1);
    }
  }

  lemma {:induction false} PaintRowsAt(b: Board, s: Board, row: int, col: int, dr: int, dc: int, erase: bool, n: nat)
    requires n <= |b|
    ensures forall i :: 0 <= i < n ==> PaintRows(b, s, row, col, dr, dc, erase, n)[i] == PaintRow(b, s, row, col, dr, dc, erase, i, |b[i]|)
  {
    if n > 0 {
      PaintRowsAt(b, s, row, col, dr, dc, erase, n - 1);
    }
  }

  /** What a painted board holds at one cell, and that its rows keep their lengths. */
  lemma PaintAt(b: Board, s: Board, row: int, col: int, dr: int, dc: int, erase: bool, i: int, j: int)
    requires 0 <= i < |b| && 0 <= j < |b[i]|
    ensures |Paint(b, s, row, col, dr, dc, erase)[i]| == |b[i]|
    ensures Paint(b, s, row, col, dr, dc, erase)[i][j] ==
      if Covers(s, i - row, j - col) && Before(i - row, j - col, dr, dc)
      then (if erase then 0 else s[i - row][j - col])
      else b[i][j]
  {
    PaintRowsAt(b, s, row, col, dr, dc, erase, |b|);
    PaintRowAt(b, s, row, col, dr, dc, erase, i, |b[i]|);
  }

  /** Every row of a painted board is as long as the board's, and holds what `PaintAt` says. */
  lemma PaintAll(b: Board, s: Board, row: int, col: int, dr: int, dc: int, erase: bool)
    ensures forall i :: 0 <= i < |b| ==> |Paint(b, s, row, col, dr, dc, erase)[i]| == |b[i]|
    ensures forall i, j :: 0 <= i < |b| && 0 <= j < |b[i]| ==>
      Paint(b, s, row, col, dr, dc, erase)[i][j] == PaintCell(b, s, row, col, dr, dc, erase, i, j)
  {
    PaintRowsAt(b, s, row, col, dr, dc, erase, |b|);
    forall i | 0 <= i < |b| {
      PaintRowAt(b, s, row, col, dr, dc, erase, i, |b[i]|);
    }
  }

  /** `set_block`'s result: every piece cell written with its tag. */
  function Stamp(b: Board, s: Board, row: int, col: int): Board {
    Paint(b, s, row, col, |s|, 0, false)
  }

  /** `remove_block`'s result: every piece cell set to 0. */
  function Erase(b: Board, s: Board, row: int, col: int): Board {
    Paint(b, s, row, col, |s|, 0, true)
  }

  lemma PaintIsGrid(b: Board, s: Board, row: int, col: int, dr: int, dc: int, erase: bool, rows: int, cols: int)
    requires IsGrid(b, rows, cols)
    ensures IsGrid(Paint(b, s, row, col, dr, dc, erase), rows, cols)
  {
    PaintAll(b, s, row, col, dr, dc, erase);
  }

  /** Nothing painted yet: the board is unchanged. */
  lemma PaintStart(b: Board, s: Board, row: int, col: int, erase: bool)
    ensures Paint(b, s, row, col, 0, 0, erase) == b
  {
    var p := Paint(b, s, row, col, 0, 0, erase);
    PaintAll(b, s, row, col, 0, 0, erase);
    forall i | 0 <= i < |b| ensures p[i] == b[i] {
      forall j | 0 <= j < |b[i]| ensures p[i][j] == b[i][j] {
      }
    }
  }

  /** Painting one more cell is one cell update (or none, for an empty shape cell). */
  lemma PaintStep(b: Board, s: Board, row: int, col: int, dr: int, dc: int, erase: bool)
    requires 0 <= dr < |s| && 0 <= dc < |s[dr]|
    requires Covers(s, dr, dc) ==> 0 <= row + dr < |b| && 0 <= col + dc < |b[row + dr]|
    ensures Covers(s, dr, dc) ==>
      Paint(b, s, row, col, dr, dc + 1, erase) ==
      Updated(Paint(b, s, row, col, dr, dc, erase), row + dr, col + dc, if erase then 0 else s[dr][dc])
    ensures !Covers(s, dr, dc) ==> Paint(b, s, row, col, dr, dc + 1, erase) == Paint(b, s, row, col, dr, dc, erase)
  {
    var p := Paint(b, s, row, col, dr, dc, erase);
    var q := Paint(b, s, row, col, dr, dc + 1, erase);
    PaintAll(b, s, row, col, dr, dc, erase);
    PaintAll(b, s, row, col, dr, dc + 1, erase);
    if Covers(s, dr, dc) {
      var u := Updated(p, row + dr, col + dc, if erase then 0 else s[dr][dc]);
      forall i | 0 <= i < |b| ensures q[i] == u[i] {
        forall j | 0 <= j < |b[i]| ensures q[i][j] == u[i][j] {
          PaintAt(b, s, row, col, dr, dc, erase, i, j);
          PaintAt(b, s, row, col, dr, dc + 1, erase, i, j);
          if i == row + dr && j == col + dc {
          } else {
            assert u[i][j] == p[i][j];
          }
        }
      }
    } else {
      forall i | 0 <= i < |b| ensures q[i] == p[i] {
        forall j | 0 <= j < |b[i]| ensures q[i][j] == p[i][j] {
          PaintAt(b, s, row, col, dr, dc, erase, i, j);
          PaintAt(b, s, row, col, dr, dc + 1, erase, i, j);
        }
      }
    }
  }

  /** Finishing a shape row is starting the next one. */
  lemma PaintNextRow(b: Board, s: Board, row: int, col: int, dr: int, erase: bool)
    requires 0 <= dr < |s|
    ensures Paint(b, s, row, col, dr, |s[dr]|, erase) == Paint(b, s, row, col, dr + 1, 0, erase)
  {
    var p := Paint(b, s, row, col, dr, |s[dr]|, erase);
    var q := Paint(b, s, row, col, dr + 1, 0, erase);
    PaintAll(b, s, row, col, dr, |s[dr]|, erase);
    PaintAll(b, s, row, col, dr + 1, 0, erase);
    forall i | 0 <= i < |b| ensures p[i] == q[i] {
      forall j | 0 <= j < |b[i]| ensures p[i][j] == q[i][j] {
        if Covers(s, i - row, j - col) {
          assert i - row == dr ==> j - col < |s[dr]|;
        }
      }
    }
  }

  /** After stamping, the board holds the piece. */
  lemma StampStamped(b: Board, s: Board, row: int, col: int)
    requires Fits(b, s, row, col)
    ensures Stamped(Stamp(b, s, row, col), s, row, col)
  {
    var p := Stamp(b, s, row, col);
    forall r, c | Covers(s, r, c) ensures 0 <= row + r < |p| && 0 <= col + c < |p[row + r]| && p[row + r][col + c] == s[r][c] {
      assert (row + r) - row == r && (col + c) - col == c;
      PaintAt(b, s, row, col, |s|, 0, false, row + r, col + c);
    }
  }

  /** Erasing ignores what was stamped before: only the footprint is overwritten. */
  lemma EraseStamp(b: Board, s: Board, row: int, col: int)
    ensures Erase(Stamp(b, s, row, col), s, row, col) == Erase(b, s, row, col)
  {
    var l := Erase(Stamp(b, s, row, col), s, row, col);
    var r := Erase(b, s, row, col);
    PaintAll(b, s, row, col, |s|, 0, false);
    PaintAll(Stamp(b, s, row, col), s, row, col, |s|, 0, true);
    PaintAll(b, s, row, col, |s|, 0, true);
    forall i | 0 <= i < |b| ensures l[i] == r[i] {
      forall j | 0 <= j < |b[i]| ensures l[i][j] == r[i][j] {
      }
    }
  }

  /** Stamping ignores what was erased before: only the footprint is overwritten. */
  lemma StampErase(b: Board, s: Board, row: int, col: int)
    ensures Stamp(Erase(b, s, row, col), s, row, col) == Stamp(b, s, row, col)
  {
    var l := Stamp(Erase(b, s, row, col), s, row, col);
    var r := Stamp(b, s, row, col);
    PaintAll(b, s, row, col, |s|, 0, true);
    PaintAll(Erase(b, s, row, col), s, row, col, |s|, 0, false);
    PaintAll(b, s, row, col, |s|, 0, false);
    forall i | 0 <= i < |b| ensures l[i] == r[i] {
      forall j | 0 <= j < |b[i]| ensures l[i][j] == r[i][j] {
      }
    }
  }

  /** A piece on free cells fits there, before and after it is stamped. */
  lemma FreeFits(b: Board, s: Board, row: int, col: int)
    requires Free(b, s, row, col)
    ensures Fits(b, s, row, col) && Fits(Stamp(b, s, row, col), s, row, col)
  {
  }

  /** On a free footprint, erasing changes nothing. */
  lemma EraseFree(b: Board, s: Board, row: int, col: int)
    requires Free(b, s, row, col)
    ensures Erase(b, s, row, col) == b
  {
    var e := Erase(b, s, row, col);
    PaintAll(b, s, row, col, |s|, 0, true);
    forall i | 0 <= i < |b| ensures e[i] == b[i] {
      forall j | 0 <= j < |b[i]| ensures e[i][j] == b[i][j] {
        if Covers(s, i - row, j - col) {
          assert b[row + (i - row)][col + (j - col)] == 0;
        }
      }
    }
  }

  /**
   * The property both `set_block` and `remove_block` exist for: on a footprint
   * the collision test passed, stamping and then erasing restores the board.
   */
  lemma StampThenEraseRestores(b: Board, s: Board, row: int, col: int)
    requires Free(b, s, row, col)
    ensures Erase(Stamp(b, s, row, col), s, row, col) == b
  {
    EraseStamp(b, s, row, col);
    EraseFree(b, s, row, col);
  }

  /** Conversely, erasing a piece the board holds and stamping it again restores the board. */
  lemma EraseThenStampRestores(b: Board, s: Board, row: int, col: int)
    requires Stamped(b, s, row, col)
    ensures Stamp(Erase(b, s, row, col), s, row, col) == b
  {
    var l := Stamp(Erase(b, s, row, col), s, row, col);
    PaintAll(b, s, row, col, |s|, 0, true);
    PaintAll(Erase(b, s, row, col), s, row, col, |s|, 0, false);
    forall i | 0 <= i < |b| ensures l[i] == b[i] {
      forall j | 0 <= j < |b[i]| ensures l[i][j] == b[i][j] {
        if Covers(s, i - row, j - col) {
          assert b[row + (i - row)][col + (j - col)] == s[i - row][j - col];
        }
      }
    }
  }

  /** Once its own cells are erased, a piece that fits is free where it stands. */
  lemma FreeAfterErase(b: Board, s: Board, row: int, col: int)
    requires Fits(b, s, row, col)
    ensures Free(Erase(b, s, row, col), s, row, col)
  {
    var e := Erase(b, s, row, col);
    forall r, c | Covers(s, r, c) ensures 0 <= row + r < |e| && 0 <= col + c < |e[row + r]| && e[row + r][col + c] == 0 {
      assert (row + r) - row == r && (col + c) - col == c;
      PaintAt(b, s, row, col, |s|, 0, true, row + r, col + c);
    }
  }

  /** Erasing never fills a row. */
  lemma EraseKeepsNoFullRow(b: Board, s: Board, row: int, col: int)
    requires NoFullRow(b)
    ensures NoFullRow(Erase(b, s, row, col))
  {
    var e := Erase(b, s, row, col);
    PaintAll(b, s, row, col, |s|, 0, true);
    forall i | 0 <= i < |e| ensures !Full(e[i]) {
      assert 0 in b[i];
      var j :| 0 <= j < |b[i]| && b[i][j] == 0;
      assert e[i][j] == 0;
    }
  }

  /** Stamping onto a board with no full row fills only rows the piece's box spans. */
  lemma StampFullRows(b: Board, s: Board, row: int, col: int)
    requires NoFullRow(b)
    ensures forall i :: 0 <= i < |b| && Full(Stamp(b, s, row, col)[i]) ==> row <= i < row + |s|
    ensures CountFull(Stamp(b, s, row, col)) <= |s|
  {
    var p := Stamp(b, s, row, col);
    PaintAll(b, s, row, col, |s|, 0, false);
    forall i | 0 <= i < |b| && !(row <= i < row + |s|) ensures !Full(p[i]) {
      forall j | 0 <= j < |b[i]| ensures p[i][j] == b[i][j] {
        assert !Covers(s, i - row, j - col);
      }
      assert p[i] == b[i];
    }
    CountFullWithin(p, row, |s|);
  }
}
