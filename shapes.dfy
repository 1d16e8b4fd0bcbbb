/**
 * `tetris/shapes.py`: a `Shape` holds a colour, a shape matrix and a
 * position. Its constructor tags every non-zero cell with the colour, the
 * `move_*` methods shift the position, and `rotate` turns the matrix
 * clockwise. The seven subclasses differ only in their table and colour.
 */
module Shapes {
  import opened Matrix
  import opened Package
  import opened Footprint

  /** The seven subclasses of `Shape`, in the order they are declared. */
  datatype Kind = O | I | T | J | L | Z | S

  /** The subclasses in the order `Shape.__subclasses__()` lists them. */
  const Kinds: seq<Kind> := [O, I, T, J, L, Z, S]

  /** Where each kind sits in `Kinds`: every kind appears, and only once. */
  function Index(k: Kind): (i: nat)
    ensures i < |Kinds| && Kinds[i] == k
    ensures forall j :: 0 <= j < |Kinds| && Kinds[j] == k ==> j == i
  {
    match k
    case O => 0
    case I => 1
    case T => 2
    case J => 3
    case L => 4
    case Z => 5
    case S => 6
  }

  /** The matrix each subclass hands to `Shape.__init__`. */
  function Table(k: Kind): Board {
    match k
    case O => [[1, 1],
               [1, 1]]
    case I => [[0, 0, 0, 0],
               [1, 1, 1, 1],
               [0, 0, 0, 0],
               [0, 0, 0, 0]]
    case T => [[0, 1, 0],
               [1, 1, 1],
               [0, 0, 0]]
    case J => [[1, 0, 0],
               [1, 1, 1],
               [0, 0, 0]]
    case L => [[0, 0, 1],
               [1, 1, 1],
               [0, 0, 0]]
    case Z => [[1, 1, 0],
               [0, 1, 1],
               [0, 0, 0]]
    case S => [[0, 1, 1],
               [1, 1, 0],
               [0, 0, 0]]
  }

  /** The side of each table's square box. */
  function Side(k: Kind): nat {
    match k
    case O => 2
    case I => 4
    case _ => 3
  }

  /**
   * The colour value each subclass passes (YELLOW, LIGHTBLUE, PURPLE, BLUE,
   * ORANGE, RED, GREEN). The `Colors` enumeration is not part of this model:
   * the tags 1..7 stand for its values, of which the engine only uses that
   * they are non-zero.
   */
  function ColorTag(k: Kind): int {
    match k
    case O => 1
    case I => 2
    case T => 3
    case J => 4
    case L => 5
    case Z => 6
    case S => 7
  }

  /** Every table is a square of side 2, 4 or 3. */
  lemma TableSquare(k: Kind)
    ensures IsSquare(Table(k), Side(k)) && 2 <= Side(k) <= 4
  {
  }

  /** Every table holds four 1s and, in the rest of its box, 0s. */
  lemma TableCells(k: Kind)
    ensures Cells(Table(k))[1] == 4
    ensures Cells(Table(k))[0] == Side(k) * Side(k) - 4
    ensures |Cells(Table(k))| == Side(k) * Side(k)
  {
    var m := Table(k);
    TallyCount(m, 1);
    TallyCount(m, 0);
    TableSquare(k);
    GridSize(m, Side(k), Side(k));
    match k
    case O => TableTallyO();
    case I => TableTallyI();
    case T => TableTallyT();
    case J => TableTallyJ();
    case L => TableTallyL();
    case Z => TableTallyZ();
    case S => TableTallyS();
  }

  lemma TableTallyO()
    ensures Tally(Table(O), 1) == 4 && Tally(Table(O), 0) == 0
  {
  }

  lemma TableTallyI()
    ensures Tally(Table(I), 1) == 4 && Tally(Table(I), 0) == 12
  {
  }

  lemma TableTallyT()
    ensures Tally(Table(T), 1) == 4 && Tally(Table(T), 0) == 5
  {
  }

  lemma TableTallyJ()
    ensures Tally(Table(J), 1) == 4 && Tally(Table(J), 0) == 5
  {
  }

  lemma TableTallyL()
    ensures Tally(Table(L), 1) == 4 && Tally(Table(L), 0) == 5
  {
  }

  lemma TableTallyZ()
    ensures Tally(Table(Z), 1) == 4 && Tally(Table(Z), 0) == 5
  {
  }

  lemma TableTallyS()
    ensures Tally(Table(S), 1) == 4 && Tally(Table(S), 0) == 5
  {
  }

  /** How many entries of `r` equal `x`. */
  function Occurrences(r: seq<int>, x: int): nat {
    if |r| == 0 then 0 else (if r[0] == x then 1 else 0) + Occurrences(r[1..], x)
  }

  lemma {:induction false} OccurrencesCount(r: seq<int>, x: int)
    ensures multiset(r)[x] == Occurrences(r, x)
  {
    if |r| > 0 {
      assert r == [r[0]] + r[1..];
      OccurrencesCount(r[1..], x);
    }
  }

  /** How many cells of `m` hold `x`. */
  function Tally(m: Board, x: int): nat {
    if |m| == 0 then 0 else Occurrences(m[0], x) + Tally(m[1..], x)
  }

  lemma {:induction false} TallyCount(m: Board, x: int)
    ensures Cells(m)[x] == Tally(m, x)
  {
    if |m| > 0 {
      OccurrencesCount(m[0], x);
      TallyCount(m[1..], x);
    }
  }

  /** A `rows`-by-`cols` matrix has `rows * cols` cells. */
  lemma {:induction false} GridSize(m: Board, rows: nat, cols: nat)
    requires IsGrid(m, rows, cols)
    ensures |Cells(m)| == rows * cols
  {
    if rows > 0 {
      GridSize(m[1..], rows - 1, cols);
      assert |Cells(m)| == |multiset(m[0])| + |Cells(m[1..])|;
      assert |multiset(m[0])| == cols;
      assert (rows - 1) * cols + cols == rows * cols;
    }
  }

  /** The matrix with every non-zero cell replaced by `color`. */
  function Colored(m: Board, color: int): Board {
    ColorUpTo(m, color, |m|, 0)
  }

  /** Cell `(i, j)` once the non-zero cells before `(dr, dc)`, in row-major order, are set to `color`. */
  function ColorCell(m: Board, color: int, dr: int, dc: int, i: int, j: int): int
    requires 0 <= i < |m| && 0 <= j < |m[i]|
  {
    if m[i][j] != 0 && Before(i, j, dr, dc) then color else m[i][j]
  }

  /** The first `n` cells of coloured row `i`. */
  function ColorRow(m: Board, color: int, dr: int, dc: int, i: int, n: nat): (r: seq<int>)
    requires 0 <= i < |m| && n <= |m[i]|
    ensures |r| == n
  {
    if n == 0 then [] else ColorRow(m, color, dr, dc, i, n - 1) + [ColorCell(m, color, dr, dc, i, n - 1)]
  }

  /** The first `n` coloured rows. */
  function ColorRows(m: Board, color: int, dr: int, dc: int, n: nat): (r: Board)
    requires n <= |m|
    ensures |r| == n && forall i :: 0 <= i < n ==> |r[i]| == |m[i]|
  {
    if n == 0 then [] else ColorRows(m, color, dr, dc, n - 1) + [ColorRow(m, color, dr, dc, n - 1, |m[n - 1]|)]
  }

  /** `m` with the non-zero cells before `(dr, dc)`, in row-major order, set to `color`. */
  function ColorUpTo(m: Board, color: int, dr: int, dc: int): (r: Board)
    ensures |r| == |m| && forall i :: 0 <= i < |m| ==> |r[i]| == |m[i]|
  {
    ColorRows(m, color, dr, dc, |m|)
  }

  lemma {:induction false} ColorRowAt(m: Board, color: int, dr: int, dc: int, i: int, n: nat)
    requires 0 <= i < |m| && n <= |m[i]|
    ensures forall j :: 0 <= j < n ==> ColorRow(m, color, dr, dc, i, n)[j] == ColorCell(m, color, dr, dc, i, j)
  {
    if n > 0 {
      ColorRowAt(m, color, dr, dc, i, n - 1);
    }
  }

  lemma {:induction false} ColorRowsAt(m: Board, color: int, dr: int, dc: int, n: nat)
    requires n <= |m|
    ensures forall i :: 0 <= i < n ==> ColorRows(m, color, dr, dc, n)[i] == ColorRow(m, color, dr, dc, i, |m[i]|)
  {
    if n > 0 {
      ColorRowsAt(m, color, dr, dc, n - 1);
    }
  }

  lemma ColorUpToAt(m: Board, color: int, dr: int, dc: int, i: int, j: int)
    requires 0 <= i < |m| && 0 <= j < |m[i]|
    ensures ColorUpTo(m, color, dr, dc)[i][j] == if m[i][j] != 0 && Before(i, j, dr, dc) then color else m[i][j]
  {
    ColorRowsAt(m, color, dr, dc, |m|);
    ColorRowAt(m, color, dr, dc, i, |m[i]|);
  }

  lemma ColorStep(m: Board, color: int, dr: int, dc: int)
    requires 0 <= dr < |m| && 0 <= dc < |m[dr]|
    ensures m[dr][dc] != 0 ==> ColorUpTo(m, color, dr, dc + 1) == Updated(ColorUpTo(m, color, dr, dc), dr, dc, color)
    ensures m[dr][dc] == 0 ==> ColorUpTo(m, color, dr, dc + 1) == ColorUpTo(m, color, dr, dc)
    ensures ColorUpTo(m, color, dr, dc)[dr][dc] == m[dr][dc]
  {
    var p := ColorUpTo(m, color, dr, dc);
    var q := ColorUpTo(m, color, dr, dc + 1);
    ColorUpToAt(m, color, dr, dc, dr, dc);
    var u := if m[dr][dc] != 0 then Updated(p, dr, dc, color) else p;
    forall i | 0 <= i < |m| ensures q[i] == u[i] {
      forall j | 0 <= j < |m[i]| ensures q[i][j] == u[i][j] {
        ColorUpToAt(m, color, dr, dc, i, j);
        ColorUpToAt(m, color, dr, dc + 1, i, j);
      }
    }
  }

  lemma ColorNextRow(m: Board, color: int, dr: int)
    requires 0 <= dr < |m| && IsRect(m)
    ensures ColorUpTo(m, color, dr, Width(m)) == ColorUpTo(m, color, dr + 1, 0)
  {
    var p := ColorUpTo(m, color, dr, Width(m));
    var q := ColorUpTo(m, color, dr + 1, 0);
    forall i | 0 <= i < |m| ensures p[i] == q[i] {
      forall j | 0 <= j < |m[i]| ensures p[i][j] == q[i][j] {
        ColorUpToAt(m, color, dr, Width(m), i, j);
        ColorUpToAt(m, color, dr + 1, 0, i, j);
      }
    }
  }

  lemma ColorStart(m: Board, color: int)
    ensures ColorUpTo(m, color, 0, 0) == m
  {
    var p := ColorUpTo(m, color, 0, 0);
    forall i | 0 <= i < |m| ensures p[i] == m[i] {
      forall j | 0 <= j < |m[i]| ensures p[i][j] == m[i][j] {
        ColorUpToAt(m, color, 0, 0, i, j);
      }
    }
  }

  /**
   * Colouring with a non-zero colour keeps the footprint: the same cells are
   * piece cells, each now holding `color`; empty cells stay 0.
   */
  lemma ColoredCells(m: Board, color: int)
    requires color != 0
    ensures |Colored(m, color)| == |m|
    ensures forall r, c :: 0 <= r < |m| && 0 <= c < |m[r]| ==>
      |Colored(m, color)[r]| == |m[r]| &&
      (Covers(Colored(m, color), r, c) <==> Covers(m, r, c)) &&
      Colored(m, color)[r][c] == (if m[r][c] != 0 then color else 0)
  {
    forall r, c | 0 <= r < |m| && 0 <= c < |m[r]|
      ensures Colored(m, color)[r][c] == (if m[r][c] != 0 then color else 0)
    {
      ColorUpToAt(m, color, |m|, 0, r, c);
    }
  }

  /** Colouring twice with the same colour is colouring once. */
  lemma ColoredIdempotent(m: Board, color: int)
    requires color != 0
    ensures Colored(Colored(m, color), color) == Colored(m, color)
  {
    var c1 := Colored(m, color);
    var c2 := Colored(c1, color);
    ColoredCells(m, color);
    ColoredCells(c1, color);
    forall i | 0 <= i < |m| ensures c2[i] == c1[i] {
      forall j | 0 <= j < |m[i]| ensures c2[i][j] == c1[i][j] {
      }
    }
  }

  /** Colouring and rotating commute: a piece may be tagged before or after it is turned. */
  lemma ColoredTurn(m: Board, color: int)
    requires IsRect(m) && color != 0
    ensures IsRect(Colored(m, color))
    ensures Turn(Colored(m, color)) == Colored(Turn(m), color)
  {
    var cm := Colored(m, color);
    ColoredCells(m, color);
    assert Width(cm) == Width(m);
    var l := Turn(cm);
    var r := Colored(Turn(m), color);
    ColoredCells(Turn(m), color);
    forall i | 0 <= i < |l| ensures l[i] == r[i] {
      forall j | 0 <= j < |l[i]| ensures l[i][j] == r[i][j] {
        ColoredTurnCell(m, cm, color, i, j);
      }
    }
  }

  lemma ColoredTurnCell(m: Board, cm: Board, color: int, i: nat, j: nat)
    requires IsRect(m) && color != 0 && cm == Colored(m, color) && IsRect(cm) && Width(cm) == Width(m)
    requires |m| > 0 && i < Width(m) && j < |m|
    ensures Turn(cm)[i][j] == Colored(Turn(m), color)[i][j]
  {
    ColoredCells(m, color);
    ColoredCells(Turn(m), color);
    TurnCell(cm, i, j);
    TurnCell(m, i, j);
  }

  /** Where a shape sits: its box's top-left cell. */
  datatype Position = Position(row: int, col: int)

  /** A falling piece of the older engine. */
  class Shape {
    var color: int
    var shape: Board
    var position: Position

    ghost predicate Valid()
      reads this
    {
      IsRect(shape)
    }

    /** `Shape.__init__`: keep the colour and the matrix, then tag the matrix. */
    constructor (color: int, shape: Board)
      requires IsRect(shape)
      ensures Valid() && this.color == color && this.shape == Colored(shape, color)
      ensures position == Position(0, 0)
    {
      this.color := color;
      this.shape := shape;
      position := Position(0, 0);
      new;
      SetShapeColor();
    }

    /** The `rows` property. */
    function Rows(): nat
      reads this
    {
      |shape|
    }

    /** The `cols` property: the length of the first row. */
    function Cols(): nat
      reads this
      requires |shape| > 0
    {
      |shape[0]|
    }

    /** `set_shape_color`: every non-zero cell takes the colour value. */
    method SetShapeColor()
      requires Valid()
      modifies this
      ensures Valid() && shape == Colored(old(shape), color)
      ensures color == old(color) && position == old(position)
    {
      var m := shape;
      ColorStart(m, color);
      for row := 0 to |m|
        invariant shape == ColorUpTo(m, color, row, 0)
        invariant color == old(color) && position == old(position)
      {
        for col := 0 to Width(m)
          invariant shape == ColorUpTo(m, color, row, col)
          invariant color == old(color) && position == old(position)
        {
          ColorStep(m, color, row, col);
          if shape[row][col] != 0 {
            shape := shape[row := shape[row][col := color]];
          }
        }
        ColorNextRow(m, color, row);
      }
      ColoredIsRect(m, color);
    }

    /** `set_pos`. */
    method SetPos(pos: Position)
      modifies this
      ensures position == pos && shape == old(shape) && color == old(color)
    {
      position := pos;
    }

    /** `move_left(times)`: only the column changes, by `-times`. */
    method MoveLeft(times: int)
      modifies this
      ensures position == Position(old(position).row, old(position).col - times)
      ensures shape == old(shape) && color == old(color)
    {
      position := Position(position.row, position.col - times);
    }

    /** `move_right(times)`: only the column changes, by `+times`. */
    method MoveRight(times: int)
      modifies this
      ensures position == Position(old(position).row, old(position).col + times)
      ensures shape == old(shape) && color == old(color)
    {
      position := Position(position.row, position.col + times);
    }

    /** `move_up`: only the row changes, by -1. */
    method MoveUp()
      modifies this
      ensures position == Position(old(position).row - 1, old(position).col)
      ensures shape == old(shape) && color == old(color)
    {
      position := Position(position.row - 1, position.col);
    }

    /** `move_down`: only the row changes, by +1. */
    method MoveDown()
      modifies this
      ensures position == Position(old(position).row + 1, old(position).col)
      ensures shape == old(shape) && color == old(color)
    {
      position := Position(position.row + 1, position.col);
    }

    /** `rotate(times)`: `times` rounds of transpose-then-reverse-each-row. */
    method Rotate(times: nat)
      requires Valid()
      modifies this
      ensures Valid() && shape == Turns(old(shape), times)
      ensures position == old(position) && color == old(color)
    {
      ghost var m0 := shape;
      for t := 0 to times
        invariant Valid() && shape == Turns(m0, t)
        invariant position == old(position) && color == old(color)
      {
        QuarterTurn();
      }
    }

    /** One round of `rotate`'s loop: transpose, then reverse every row in place. */
    method QuarterTurn()
      requires Valid()
      modifies this
      ensures Valid() && shape == Turn(old(shape))
      ensures position == old(position) && color == old(color)
    {
      ghost var before := shape;
      shape := Transpose(shape);
      ghost var tr := shape;
      for i := 0 to |shape|
        invariant |shape| == |tr|
        invariant forall k :: 0 <= k < i ==> shape[k] == Reverse(tr[k])
        invariant forall k :: i <= k < |tr| ==> shape[k] == tr[k]
        invariant position == old(position) && color == old(color)
      {
        shape := shape[i := Reverse(shape[i])];
      }
      ReversedTransposeIsTurn(before, shape);
    }
  }

  /** Reversing every row of the transpose is one quarter-turn. */
  lemma ReversedTransposeIsTurn(m: Board, r: Board)
    requires IsRect(m)
    requires |r| == |Transpose(m)| && forall k :: 0 <= k < |r| ==> r[k] == Reverse(Transpose(m)[k])
    ensures r == Turn(m)
  {
    TurnIsReversedTranspose(m);
    ReverseRowsAt(Transpose(m));
  }

  /** Tagging keeps every row's length, so a rectangle stays one. */
  lemma ColoredIsRect(m: Board, color: int)
    requires IsRect(m)
    ensures IsRect(Colored(m, color))
  {
  }
}
