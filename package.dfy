/**
 * The package module `tetris/__init__.py`: `transpose` (a `zip(*m)`), the
 * clockwise quarter-turn both piece classes build on it (transpose, then
 * reverse every row), and the plain `Grid` the older engine draws on.
 */
module Package {
  import opened Matrix

  /** Length of the first row (0 for an empty matrix). */
  function Width(m: Board): nat {
    if |m| == 0 then 0 else |m[0]|
  }

  /** Every row is as long as the first. */
  predicate IsRect(m: Board) {
    forall i :: 0 <= i < |m| ==> |m[i]| == Width(m)
  }

  /** Column `j` of the first `|m|` rows: the `j`-th tuple `zip` forms. */
  function Column(m: Board, j: nat): (c: seq<int>)
    requires forall i :: 0 <= i < |m| ==> j < |m[i]|
    ensures |c| == |m|
  {
    if |m| == 0 then [] else Column(m[..|m| - 1], j) + [m[|m| - 1][j]]
  }

  lemma {:induction false} ColumnAt(m: Board, j: nat)
    requires forall i :: 0 <= i < |m| ==> j < |m[i]|
    ensures forall i :: 0 <= i < |m| ==> Column(m, j)[i] == m[i][j]
  {
    if |m| > 0 {
      ColumnAt(m[..|m| - 1], j);
    }
  }

  /** The first `n` columns of `m`, each as a row. */
  function Columns(m: Board, n: nat): (t: seq<seq<int>>)
    requires forall i :: 0 <= i < |m| ==> n <= |m[i]|
    ensures |t| == n
  {
    if n == 0 then [] else Columns(m, n - 1) + [Column(m, n - 1)]
  }

  lemma {:induction false} ColumnsAt(m: Board, n: nat)
    requires forall i :: 0 <= i < |m| ==> n <= |m[i]|
    ensures forall j :: 0 <= j < n ==> Columns(m, n)[j] == Column(m, j)
    ensures forall j, i :: 0 <= j < n && 0 <= i < |m| ==> |Columns(m, n)[j]| == |m| && Columns(m, n)[j][i] == m[i][j]
  {
    if n > 0 {
      ColumnsAt(m, n - 1);
      ColumnAt(m, n - 1);
    }
  }

  /** `list(zip(*m))`: column `j` of `m` becomes row `j`. */
  function Transpose(m: Board): (t: Board)
    requires IsRect(m)
    ensures |m| > 0 ==> IsGrid(t, Width(m), |m|)
    ensures |m| == 0 ==> t == []
    ensures forall j, i :: 0 <= j < |t| && 0 <= i < |m| ==> t[j][i] == m[i][j]
  {
    if |m| == 0 then [] else ColumnsAt(m, Width(m)); Columns(m, Width(m))
  }

  /** Transposing twice gives the matrix back when it has at least one row and one column. */
  lemma TransposeTwice(m: Board)
    requires IsRect(m) && |m| > 0 && Width(m) > 0
    ensures IsRect(Transpose(m)) && Transpose(Transpose(m)) == m
  {
    var t := Transpose(m);
    assert Width(t) == |m|;
    var tt := Transpose(t);
    assert |tt| == |m|;
    forall i | 0 <= i < |m| ensures tt[i] == m[i] {
      assert |tt[i]| == |m[i]|;
      forall j | 0 <= j < |m[i]| ensures tt[i][j] == m[i][j] {
        assert tt[i][j] == t[j][i];
      }
    }
  }

  /** A matrix with rows but no columns transposes to no rows: the round trip loses it. */
  lemma TransposeLosesEmptyRows()
    ensures Transpose([[], []]) == [] && Transpose(Transpose([[], []])) != [[], []]
  {
  }

  /** `list(row)[::-1]`. */
  function Reverse(s: seq<int>): (r: seq<int>)
    ensures |r| == |s| && forall k :: 0 <= k < |s| ==> r[k] == s[|s| - 1 - k]
  {
    if |s| == 0 then [] else [s[|s| - 1]] + Reverse(s[..|s| - 1])
  }

  /** Every row reversed. */
  function ReverseRows(t: Board): (r: Board)
    ensures |r| == |t|
  {
    if |t| == 0 then [] else ReverseRows(t[..|t| - 1]) + [Reverse(t[|t| - 1])]
  }

  lemma {:induction false} ReverseRowsAt(t: Board)
    ensures forall i :: 0 <= i < |t| ==> ReverseRows(t)[i] == Reverse(t[i])
  {
    if |t| > 0 {
      ReverseRowsAt(t[..|t| - 1]);
    }
  }

  /** The first `n` columns of `m`, each read from the bottom row up. */
  function TurnCols(m: Board, n: nat): (r: Board)
    requires forall i :: 0 <= i < |m| ==> n <= |m[i]|
    ensures |r| == n
  {
    if n == 0 then [] else TurnCols(m, n - 1) + [Reverse(Column(m, n - 1))]
  }

  lemma {:induction false} TurnColsAt(m: Board, n: nat)
    requires forall i :: 0 <= i < |m| ==> n <= |m[i]|
    ensures forall j :: 0 <= j < n ==> TurnCols(m, n)[j] == Reverse(Column(m, j)) && |TurnCols(m, n)[j]| == |m|
  {
    if n > 0 {
      TurnColsAt(m, n - 1);
    }
  }

  /**
   * One clockwise quarter-turn: row `j` of the result is column `j` of `m`
   * read from the bottom up, which is what transposing and then reversing
   * every row produces (`TurnIsReversedTranspose`).
   */
  function Turn(m: Board): (r: Board)
    requires IsRect(m)
    ensures IsRect(r)
    ensures |m| > 0 ==> IsGrid(r, Width(m), |m|)
    ensures |m| == 0 ==> r == []
  {
    if |m| == 0 then [] else TurnColsAt(m, Width(m)); TurnCols(m, Width(m))
  }

  /** A quarter-turn reads the columns of `m` from the bottom up: cell `(i, j)` is `m[|m|-1-j][i]`. */
  lemma TurnAt(m: Board)
    requires IsRect(m)
    ensures forall i, j :: 0 <= i < |Turn(m)| && 0 <= j < |m| ==> Turn(m)[i][j] == m[|m| - 1 - j][i]
  {
    forall i, j | 0 <= i < |Turn(m)| && 0 <= j < |m| ensures Turn(m)[i][j] == m[|m| - 1 - j][i] {
      TurnCell(m, i, j);
    }
  }

  lemma TurnCell(m: Board, i: nat, j: nat)
    requires IsRect(m) && |m| > 0 && i < Width(m) && j < |m|
    ensures Turn(m)[i][j] == m[|m| - 1 - j][i]
  {
    var t := TurnCols(m, Width(m));
    assert Turn(m) == t;
    TurnColsAt(m, Width(m));
    var c := Column(m, i);
    assert t[i] == Reverse(c);
    ColumnAt(m, i);
    assert c[|m| - 1 - j] == m[|m| - 1 - j][i];
  }

  /** The quarter-turn is the transpose with every row reversed. */
  lemma TurnIsReversedTranspose(m: Board)
    requires IsRect(m)
    ensures Turn(m) == ReverseRows(Transpose(m))
  {
    var l := Turn(m);
    var r := ReverseRows(Transpose(m));
    ReverseRowsAt(Transpose(m));
    TurnAt(m);
    forall i | 0 <= i < |l| ensures l[i] == r[i] {
      forall j | 0 <= j < |m| ensures l[i][j] == r[i][j] {
        assert r[i] == Reverse(Transpose(m)[i]);
      }
    }
  }

  /** `times` quarter-turns. */
  function Turns(m: Board, times: nat): (r: Board)
    requires IsRect(m)
    ensures IsRect(r)
  {
    if times == 0 then m else Turn(Turns(m, times - 1))
  }

  /** An `n`-by-`n` matrix. */
  predicate IsSquare(m: Board, n: nat) {
    IsGrid(m, n, n)
  }

  /** On a square, a quarter-turn sends cell `(i, j)` to `(j, n-1-i)` and keeps the size. */
  lemma TurnSquare(m: Board, n: nat)
    requires IsSquare(m, n)
    ensures IsSquare(Turn(m), n)
    ensures forall i, j :: 0 <= i < n && 0 <= j < n ==> Turn(m)[j][n - 1 - i] == m[i][j]
  {
    TurnAt(m);
    if n > 0 {
      assert Width(m) == n;
    }
  }

  /** Two quarter-turns of an `r`-by-`c` matrix (r, c > 0) are a half-turn. */
  lemma HalfTurn(m: Board, h: Board, r: nat, c: nat)
    requires IsGrid(m, r, c) && r > 0 && c > 0 && h == Turn(Turn(m))
    ensures IsGrid(h, r, c)
    ensures forall i, j :: 0 <= i < r && 0 <= j < c ==> h[i][j] == m[r - 1 - i][c - 1 - j]
  {
    var t := Turn(m);
    assert Width(m) == c;
    TurnAt(m);
    assert IsGrid(t, c, r) && Width(t) == r;
    TurnAt(t);
  }

  /** Four quarter-turns are the identity, for any matrix with a row and a column. */
  lemma FourTurns(m: Board)
    requires IsRect(m) && |m| > 0 && Width(m) > 0
    ensures Turns(m, 4) == m
  {
    var t1 := Turn(m);
    var t2 := Turn(t1);
    var t3 := Turn(t2);
    var t4 := Turn(t3);
    assert Turns(m, 1) == t1;
    assert Turns(m, 2) == t2;
    assert Turns(m, 3) == t3;
    assert Turns(m, 4) == t4;
    HalfTurnsCancel(m, t2, t4);
  }

  /** Two half-turns cancel. */
  lemma HalfTurnsCancel(m: Board, h: Board, hh: Board)
    requires IsRect(m) && |m| > 0 && Width(m) > 0
    requires h == Turn(Turn(m)) && hh == Turn(Turn(h))
    ensures hh == m
  {
    var r, c := |m|, Width(m);
    HalfTurn(m, h, r, c);
    HalfTurn(h, hh, r, c);
    forall i | 0 <= i < r ensures hh[i] == m[i] {
      assert |hh[i]| == |m[i]|;
    }
  }

  /** Three more quarter-turns undo one: the undo the older engine uses on a rejected rotation. */
  lemma ThreeTurnsUndoOne(m: Board)
    requires IsRect(m) && |m| > 0 && Width(m) > 0
    ensures Turns(Turn(m), 3) == m
  {
    var t1 := Turn(m);
    var t2 := Turn(t1);
    var t3 := Turn(t2);
    var t4 := Turn(t3);
    assert Turns(t1, 1) == t2;
    assert Turns(t1, 2) == t3;
    assert Turns(t1, 3) == t4;
    HalfTurnsCancel(m, t2, t4);
  }

  /** The multiset of all cell values. */
  function Cells(m: Board): multiset<int>
  {
    if |m| == 0 then multiset{} else multiset(m[0]) + Cells(m[1..])
  }

  lemma {:induction false} CellsAppend(a: Board, b: Board)
    ensures Cells(a + b) == Cells(a) + Cells(b)
    decreases |a|
  {
    if |a| > 0 {
      assert (a + b)[1..] == a[1..] + b;
      CellsAppend(a[1..], b);
    } else {
      assert a + b == b;
    }
  }

  lemma {:induction false} CellsOfEmptyRows(m: Board)
    requires forall i :: 0 <= i < |m| ==> |m[i]| == 0
    ensures Cells(m) == multiset{}
  {
    if |m| > 0 {
      CellsOfEmptyRows(m[1..]);
    }
  }

  /** Prepending `x[j]` to row `j`, for every `j`, adds exactly the cells of `x`. */
  lemma {:induction false} ConsColumn(x: seq<int>, a: Board, s: Board)
    requires |a| == |x| && |s| == |x|
    requires forall j :: 0 <= j < |x| ==> s[j] == [x[j]] + a[j]
    ensures Cells(s) == multiset(x) + Cells(a)
  {
    if |x| > 0 {
      ConsColumn(x[1..], a[1..], s[1..]);
      assert x == [x[0]] + x[1..];
    }
  }

  /** Transposition permutes the cells. */
  lemma {:induction false} TransposeCells(m: Board)
    requires IsRect(m)
    ensures Cells(Transpose(m)) == Cells(m)
    decreases |m|
  {
    var t := Transpose(m);
    if |m| == 0 {
    } else if Width(m) == 0 {
      CellsOfEmptyRows(m);
    } else if |m| == 1 {
      var none := seq(Width(m), _ => []);
      CellsOfEmptyRows(none);
      ConsColumn(m[0], none, t);
      assert m[1..] == [];
    } else {
      var m' := m[1..];
      assert Width(m') == Width(m);
      var t' := Transpose(m');
      TransposeCells(m');
      forall j | 0 <= j < Width(m) ensures t[j] == [m[0][j]] + t'[j] {
        assert |t[j]| == |m|;
        forall i | 0 <= i < |m| ensures t[j][i] == ([m[0][j]] + t'[j])[i] {
          if i > 0 {
            assert t'[j][i - 1] == m'[i - 1][j];
          }
        }
      }
      ConsColumn(m[0], t', t);
    }
  }

  lemma {:induction false} ReverseCells(s: seq<int>)
    ensures multiset(Reverse(s)) == multiset(s)
    decreases |s|
  {
    if |s| > 0 {
      var s' := s[..|s| - 1];
      ReverseCells(s');
      assert Reverse(s) == [s[|s| - 1]] + Reverse(s');
      assert s == s' + [s[|s| - 1]];
    }
  }

  lemma {:induction false} ReverseRowsCells(t: Board, r: Board)
    requires |r| == |t| && forall i :: 0 <= i < |t| ==> r[i] == Reverse(t[i])
    ensures Cells(r) == Cells(t)
    decreases |t|
  {
    if |t| > 0 {
      ReverseCells(t[0]);
      ReverseRowsCells(t[1..], r[1..]);
    }
  }

  /** A quarter-turn permutes the cells: it keeps the multiset of cell values. */
  lemma TurnCells(m: Board)
    requires IsRect(m)
    ensures Cells(Turn(m)) == Cells(m)
  {
    TransposeCells(m);
    ReverseRowsAt(Transpose(m));
    TurnIsReversedTranspose(m);
    ReverseRowsCells(Transpose(m), Turn(m));
  }

  /** Any number of turns keeps the multiset of cell values, and a square stays the same square. */
  lemma {:induction false} TurnsKeep(m: Board, n: nat, times: nat)
    requires IsSquare(m, n)
    ensures IsSquare(Turns(m, times), n)
    ensures Cells(Turns(m, times)) == Cells(m)
  {
    if times > 0 {
      TurnsKeep(m, n, times - 1);
      TurnSquare(Turns(m, times - 1), n);
      TurnCells(Turns(m, times - 1));
    }
  }

  /** `tetris.Grid`: a list of `rows` rows of `cols` cells. */
  class Grid {
    const rows: nat
    const cols: nat
    const lastRow: int
    const lastCol: int
    var grid: Board

    ghost predicate Valid()
      reads this
    {
      lastRow == rows - 1 && lastCol == cols - 1 && IsGrid(grid, rows, cols)
    }

    constructor (rows: nat, cols: nat)
      ensures Valid() && this.rows == rows && this.cols == cols
      ensures grid == Zeros(rows, cols)
    {
      this.rows := rows;
      this.cols := cols;
      lastRow := rows - 1;
      lastCol := cols - 1;
      new;
      grid := Create();
    }

    /** `create`: append `rows` zero rows, one at a time. */
    method Create() returns (g: Board)
      ensures g == Zeros(rows, cols)
    {
      g := [];
      for row := 0 to rows
        invariant IsGrid(g, row, cols)
        invariant forall i :: 0 <= i < row ==> g[i] == ZeroRow(cols)
      {
        g := g + [ZeroRow(cols)];
      }
      assert g == Zeros(rows, cols);
    }

    /** `delete_row`: `del grid[row]`, then a zero row is inserted at the top. */
    method DeleteRow(row: int)
      requires Valid() && 0 <= row < rows
      modifies this
      ensures Valid()
      ensures grid == Matrix.DeleteRow(old(grid), row, cols)
    {
      DeleteRowIsGrid(grid, row, rows, cols);
      grid := [ZeroRow(cols)] + grid[..row] + grid[row + 1..];
    }

    /** `clear`: a fresh all-zero board. */
    method Clear()
      requires Valid()
      modifies this
      ensures Valid() && grid == Zeros(rows, cols)
    {
      grid := Create();
    }

    /** `grid[row, col]`: `__getitem__` with a pair reads one cell. */
    function Get(row: int, col: int): (v: int)
      reads this
      requires Valid() && 0 <= row < rows && 0 <= col < cols
    {
      grid[row][col]
    }

    /** `grid[row]`: `__getitem__` with a single index returns the whole row. */
    function Row(row: int): (r: seq<int>)
      reads this
      requires Valid() && 0 <= row < rows
      ensures |r| == cols && forall col :: 0 <= col < cols ==> r[col] == Get(row, col)
    {
      grid[row]
    }

    /** `grid[row, col] = v`: `__setitem__` changes exactly that one cell. */
    method Set(row: int, col: int, v: int)
      requires Valid() && 0 <= row < rows && 0 <= col < cols
      modifies this
      ensures Valid()
      ensures grid == Updated(old(grid), row, col, v)
    {
      grid := grid[row := grid[row][col := v]];
    }
  }
}
