/**
 * Boards as values: a board is a sequence of rows of integer cell tags,
 * `0` meaning empty. This module holds what both board classes and both
 * engines share: the all-zero board, one-cell update, the row deletion of
 * `delete_row`, and the top-to-bottom clearing of full rows.
 */
module Matrix {

  type Board = seq<seq<int>>

  /** `b` has `rows` rows of `cols` cells each. */
  predicate IsGrid(b: Board, rows: int, cols: int) {
    |b| == rows && forall i :: 0 <= i < |b| ==> |b[i]| == cols
  }

  /** The Python row `[0] * cols`. */
  function ZeroRow(cols: nat): (z: seq<int>)
    ensures |z| == cols
    ensures forall j :: 0 <= j < cols ==> z[j] == 0
  {
    seq(cols, _ => 0)
  }

  /** `rows` rows of `cols` zeros: a new or cleared board. */
  function Zeros(rows: nat, cols: nat): (z: Board)
    ensures IsGrid(z, rows, cols)
    ensures forall i, j :: 0 <= i < rows && 0 <= j < cols ==> z[i][j] == 0
  {
    seq(rows, _ => ZeroRow(cols))
  }

  /** The board after `board[row][col] = v`. */
  function Updated(b: Board, row: int, col: int, v: int): (r: Board)
    requires 0 <= row < |b| && 0 <= col < |b[row]|
    ensures |r| == |b| && forall i :: 0 <= i < |b| ==> |r[i]| == |b[i]|
    ensures r[row][col] == v
    ensures forall i, j :: 0 <= i < |b| && 0 <= j < |b[i]| && (i != row || j != col) ==> r[i][j] == b[i][j]
  {
    b[row := b[row][col := v]]
  }

  /** The board after `delete_row(row)`: row `row` is dropped and a zero row enters at the top. */
  function DeleteRow(b: Board, row: int, cols: nat): (r: Board)
    requires 0 <= row < |b|
    ensures |r| == |b|
    ensures r[0] == ZeroRow(cols)
    ensures forall i :: 1 <= i <= row ==> r[i] == b[i - 1]
    ensures forall i :: row < i < |b| ==> r[i] == b[i]
  {
    [ZeroRow(cols)] + b[..row] + b[row + 1..]
  }

  lemma DeleteRowIsGrid(b: Board, row: int, rows: int, cols: nat)
    requires 0 <= row < |b| && IsGrid(b, rows, cols)
    ensures IsGrid(DeleteRow(b, row, cols), rows, cols)
  {
    var r := DeleteRow(b, row, cols);
    forall i | 0 <= i < |r| ensures |r[i]| == cols {
      if i == 0 {
      } else if i <= row {
        assert r[i] == b[i - 1];
      } else {
        assert r[i] == b[i];
      }
    }
  }

  /** `0 not in row`: the row has no empty cell. */
  predicate Full(row: seq<int>) {
    0 !in row
  }

  predicate NoFullRow(b: Board) {
    forall i :: 0 <= i < |b| ==> !Full(b[i])
  }

  /** The number of full rows of `b`. */
  function CountFull(b: Board): nat
  {
    if |b| == 0 then 0 else CountFull(b[..|b| - 1]) + (if Full(b[|b| - 1]) then 1 else 0)
  }

  /** The rows of `b` that are not full, in their original order. */
  function Survivors(b: Board): Board
  {
    if |b| == 0 then [] else Survivors(b[..|b| - 1]) + (if Full(b[|b| - 1]) then [] else [b[|b| - 1]])
  }

  /** The board after all full rows of `b` are removed and as many zero rows enter at the top. */
  function Cleared(b: Board, cols: nat): Board
  {
    Zeros(CountFull(b), cols) + Survivors(b)
  }

  /** Filtering distributes over concatenation, so survivors keep their relative order. */
  lemma {:induction false} SurvivorsAppend(b: Board, c: Board)
    ensures Survivors(b + c) == Survivors(b) + Survivors(c)
    ensures CountFull(b + c) == CountFull(b) + CountFull(c)
    decreases |c|
  {
    if |c| == 0 {
      assert b + c == b;
    } else {
      var c' := c[..|c| - 1];
      assert (b + c)[..|b + c| - 1] == b + c';
      SurvivorsAppend(b, c');
    }
  }

  /** Every full row is counted and dropped; every other row survives, unchanged. */
  lemma {:induction false} SurvivorsCount(b: Board)
    ensures CountFull(b) + |Survivors(b)| == |b|
    ensures forall k :: 0 <= k < |Survivors(b)| ==> !Full(Survivors(b)[k]) && Survivors(b)[k] in b
  {
    if |b| > 0 {
      var b' := b[..|b| - 1];
      var last := b[|b| - 1];
      SurvivorsCount(b');
      assert b == b' + [last];
      var s' := Survivors(b');
      var s := Survivors(b);
      assert s == s' + (if Full(last) then [] else [last]);
      forall k | 0 <= k < |s| ensures !Full(s[k]) && s[k] in b {
        if k < |s'| {
          assert s[k] == s'[k];
          assert s'[k] in b';
        } else {
          assert s[k] == last;
        }
      }
    }
  }

  /** A board without full rows is its own survivor list. */
  lemma {:induction false} SurvivorsOfNoFull(b: Board)
    requires NoFullRow(b)
    ensures Survivors(b) == b && CountFull(b) == 0
  {
    if |b| > 0 {
      var b' := b[..|b| - 1];
      assert NoFullRow(b') by {
        forall i | 0 <= i < |b'| ensures !Full(b'[i]) {
          assert b'[i] == b[i];
        }
      }
      SurvivorsOfNoFull(b');
      assert b == b' + [b[|b| - 1]];
    }
  }

  lemma SurvivorsIsGrid(b: Board, rows: int, cols: nat)
    requires IsGrid(b, rows, cols)
    ensures forall k :: 0 <= k < |Survivors(b)| ==> |Survivors(b)[k]| == cols
  {
    SurvivorsCount(b);
    forall k | 0 <= k < |Survivors(b)| ensures |Survivors(b)[k]| == cols {
      var row := Survivors(b)[k];
      assert row in b;
      var i :| 0 <= i < |b| && b[i] == row;
    }
  }

  /**
   * Clearing keeps the board's size, leaves no full row behind (when a row has
   * a cell), puts one zero row on top per full row, and is idempotent.
   */
  lemma ClearedFacts(b: Board, rows: int, cols: nat)
    requires IsGrid(b, rows, cols)
    ensures IsGrid(Cleared(b, cols), rows, cols)
    ensures Cleared(b, cols)[..CountFull(b)] == Zeros(CountFull(b), cols)
    ensures Cleared(b, cols)[CountFull(b)..] == Survivors(b)
    ensures cols > 0 ==> NoFullRow(Cleared(b, cols))
    ensures cols > 0 ==> Cleared(Cleared(b, cols), cols) == Cleared(b, cols)
    ensures NoFullRow(b) ==> Cleared(b, cols) == b
  {
    SurvivorsCount(b);
    SurvivorsIsGrid(b, rows, cols);
    var c := Cleared(b, cols);
    var n := CountFull(b);
    assert c[..n] == Zeros(n, cols);
    assert c[n..] == Survivors(b);
    if cols > 0 {
      forall i | 0 <= i < |c| ensures !Full(c[i]) {
        if i < n {
          assert c[i] == ZeroRow(cols);
          assert c[i][0] == 0;
        } else {
          assert c[i] == Survivors(b)[i - n];
        }
      }
      SurvivorsOfNoFull(c);
    }
    if NoFullRow(b) {
      SurvivorsOfNoFull(b);
      assert Zeros(0, cols) == [];
    }
  }

  /** Clearing keeps the board's size and leaves no full row behind. */
  lemma ClearedGrid(b: Board, rows: int, cols: nat)
    requires IsGrid(b, rows, cols) && cols > 0
    ensures IsGrid(Cleared(b, cols), rows, cols) && NoFullRow(Cleared(b, cols))
  {
    ClearedFacts(b, rows, cols);
  }

  /** Scanning row `i` adds it to the survivors or to the count of full rows. */
  lemma ScanOne(b: Board, i: int)
    requires 0 <= i < |b|
    ensures Survivors(b[..i + 1]) == Survivors(b[..i]) + (if Full(b[i]) then [] else [b[i]])
    ensures CountFull(b[..i + 1]) == CountFull(b[..i]) + (if Full(b[i]) then 1 else 0)
    ensures CountFull(b[..i]) + |Survivors(b[..i])| == i
  {
    var p := b[..i];
    assert b[..i + 1] == p + [b[i]];
    SurvivorsAppend(p, [b[i]]);
    assert Survivors([b[i]]) == Survivors([]) + (if Full(b[i]) then [] else [b[i]]) by {
      assert [b[i]][..0] == [];
    }
    assert CountFull([b[i]]) == CountFull([]) + (if Full(b[i]) then 1 else 0) by {
      assert [b[i]][..0] == [];
    }
    SurvivorsCount(p);
  }

  /**
   * One step of the top-to-bottom scan of `clear_complete_rows`: with rows
   * `0..i-1` of `b` already processed, row `i` of the current board is `b[i]`,
   * and deleting it when full (or keeping it) processes one more row.
   */
  lemma ClearStep(b: Board, i: int, cols: nat)
    requires 0 <= i < |b|
    ensures |Cleared(b[..i], cols) + b[i..]| == |b|
    ensures (Cleared(b[..i], cols) + b[i..])[i] == b[i]
    ensures Full(b[i]) ==> DeleteRow(Cleared(b[..i], cols) + b[i..], i, cols) == Cleared(b[..i + 1], cols) + b[i + 1..]
    ensures !Full(b[i]) ==> Cleared(b[..i], cols) + b[i..] == Cleared(b[..i + 1], cols) + b[i + 1..]
    ensures CountFull(b[..i + 1]) == CountFull(b[..i]) + (if Full(b[i]) then 1 else 0)
  {
    ScanOne(b, i);
    assert |Cleared(b[..i], cols)| == i;
    if Full(b[i]) {
      ScanFull(b, i, cols);
    } else {
      assert b[i..] == [b[i]] + b[i + 1..];
    }
  }

  /** A full row under scan: deleting it moves it out of the survivors and adds a zero row on top. */
  lemma ScanFull(b: Board, i: int, cols: nat)
    requires 0 <= i < |b| && Full(b[i])
    ensures |Cleared(b[..i], cols) + b[i..]| == |b|
    ensures DeleteRow(Cleared(b[..i], cols) + b[i..], i, cols) == Cleared(b[..i + 1], cols) + b[i + 1..]
  {
    var p := b[..i];
    ScanOne(b, i);
    var cur := Cleared(p, cols) + b[i..];
    var n := CountFull(p);
    calc {
      DeleteRow(cur, i, cols);
      [ZeroRow(cols)] + cur[..i] + cur[i + 1..];
      { assert cur[..i] == Cleared(p, cols); assert cur[i + 1..] == b[i + 1..]; }
      [ZeroRow(cols)] + (Zeros(n, cols) + Survivors(p)) + b[i + 1..];
      { assert Zeros(n + 1, cols) == [ZeroRow(cols)] + Zeros(n, cols); }
      Zeros(n + 1, cols) + Survivors(p) + b[i + 1..];
      Cleared(b[..i + 1], cols) + b[i + 1..];
    }
  }

  /** `CountFull` within a window: provided every full row lies in `[lo, hi)`. */
  function Window(m: int, lo: int, hi: int): int {
    var a := if m < hi then m else hi;
    var z := if lo < 0 then 0 else lo;
    if a - z < 0 then 0 else a - z
  }

  /** If every full row of `b` lies in rows `[lo, lo + n)`, at most `n` rows are full. */
  lemma {:induction false} CountFullWithin(b: Board, lo: int, n: nat)
    requires forall i :: 0 <= i < |b| && Full(b[i]) ==> lo <= i < lo + n
    ensures CountFull(b) <= n
  {
    CountFullWindow(b, lo, lo + n);
  }

  lemma {:induction false} CountFullWindow(b: Board, lo: int, hi: int)
    requires forall i :: 0 <= i < |b| && Full(b[i]) ==> lo <= i < hi
    ensures CountFull(b) <= Window(|b|, lo, hi)
  {
    if |b| > 0 {
      var b' := b[..|b| - 1];
      CountFullWindow(b', lo, hi);
    }
  }
}
