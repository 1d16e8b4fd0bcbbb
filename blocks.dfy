/**
 * `tetris/blocks.py`: the pieces of the newer engine. A `Tetrimino` carries
 * an id, a name, a matrix whose non-zero cells hold the id, its box size
 * and a grid position. A `Bag` builds the seven pieces and shuffles them.
 */
module Blocks {
  import opened Matrix
  import opened Package
  import opened Shapes

  /** The id `add_blocks` gives each piece. */
  function Id(k: Kind): int {
    match k
    case O => 1
    case I => 2
    case T => 3
    case J => 4
    case L => 5
    case Z => 6
    case S => 7
  }

  /** The name `add_blocks` gives each piece. */
  function Name(k: Kind): string {
    match k
    case O => "O-Block"
    case I => "I-Block"
    case T => "T-Block"
    case J => "J-Block"
    case L => "L-Block"
    case Z => "Z-Block"
    case S => "S-Block"
  }

  /** The matrix `add_blocks` writes out for each piece. */
  function BagShape(k: Kind): Board {
    match k
    case O => [[1, 1],
               [1, 1]]
    case I => [[0, 0, 0, 0],
               [2, 2, 2, 2],
               [0, 0, 0, 0],
               [0, 0, 0, 0]]
    case T => [[0, 3, 0],
               [3, 3, 3],
               [0, 0, 0]]
    case J => [[4, 0, 0],
               [4, 4, 4],
               [0, 0, 0]]
    case L => [[0, 0, 5],
               [5, 5, 5],
               [0, 0, 0]]
    case Z => [[6, 6, 0],
               [0, 6, 6],
               [0, 0, 0]]
    case S => [[0, 7, 7],
               [7, 7, 0],
               [0, 0, 0]]
  }

  /** The kind a piece id of 1..7 names: the inverse of `Id`. */
  function KindOf(id: int): (k: Kind)
    requires 1 <= id <= 7
    ensures Id(k) == id
  {
    Kinds[id - 1]
  }

  /** The ids are 1..7 and tell the kinds apart. */
  lemma IdsDistinct(k: Kind)
    ensures 1 <= Id(k) <= 7 && KindOf(Id(k)) == k
  {
  }

  /** The ids of a sequence of pieces. */
  function Ids(bs: seq<Tetrimino>): (r: seq<int>)
    ensures |r| == |bs| && forall i :: 0 <= i < |bs| ==> r[i] == bs[i].id
  {
    seq(|bs|, i requires 0 <= i < |bs| => bs[i].id)
  }

  /**
   * The two engines draw the same seven pieces: each matrix in `add_blocks`
   * is the matching `shapes.py` table with its cells tagged by the piece id.
   */
  lemma BagShapeIsTaggedTable(k: Kind)
    ensures BagShape(k) == Colored(Table(k), Id(k))
    ensures IsSquare(BagShape(k), Side(k))
  {
    var m := Table(k);
    var c := Colored(m, Id(k));
    var b := BagShape(k);
    TableSquare(k);
    ColoredCells(m, Id(k));
    forall i | 0 <= i < |b| ensures b[i] == c[i] {
      forall j | 0 <= j < |b[i]| ensures b[i][j] == c[i][j] {
      }
    }
  }

  /** The seven pieces of `add_blocks` carry the ids 1..7 in order. */
  lemma SevenIds(made: seq<Tetrimino>)
    requires |made| == 7 && forall n :: 0 <= n < 7 ==> made[n].id == Id(Kinds[n])
    ensures Ids(made) == [1, 2, 3, 4, 5, 6, 7]
  {
  }

  /** Pieces left untouched stay as `add_blocks` made them. */
  twostate lemma StillPristine(made: seq<Tetrimino>)
    requires |made| == 7
    requires forall n :: 0 <= n < 7 ==> old(Pristine(made[n], Kinds[n])) && unchanged(made[n])
    ensures forall n :: 0 <= n < 7 ==> Pristine(made[n], Kinds[n])
  {
  }

  /** A reordering of the seven made pieces: each is the piece of the kind its id names. */
  lemma ShuffledPristine(made: seq<Tetrimino>, bs: seq<Tetrimino>)
    requires |made| == 7 && multiset(bs) == multiset(made)
    requires forall n :: 0 <= n < 7 ==> Pristine(made[n], Kinds[n])
    ensures |bs| == 7
    ensures forall i :: 0 <= i < 7 ==> bs[i] in made
    ensures forall i :: 0 <= i < 7 ==> bs[i].Valid() && 1 <= bs[i].id <= 7 && Pristine(bs[i], KindOf(bs[i].id))
  {
    assert |bs| == |multiset(bs)| == 7;
    forall i | 0 <= i < 7
      ensures bs[i] in made && bs[i].Valid() && 1 <= bs[i].id <= 7 && Pristine(bs[i], KindOf(bs[i].id))
    {
      assert bs[i] in multiset(made);
      var p :| 0 <= p < 7 && made[p] == bs[i];
      IdsDistinct(Kinds[p]);
      BagShapeIsTaggedTable(Kinds[p]);
    }
  }

  /** Pieces with pairwise different ids are different objects. */
  lemma IdsApart(bs: seq<Tetrimino>)
    requires forall i, j :: 0 <= i < j < |bs| ==> bs[i].id != bs[j].id
    ensures Distinct(bs)
  {
  }

  /** All seven pieces are pairwise distinct objects. */
  ghost predicate Distinct(bs: seq<Tetrimino>) {
    forall i, j :: 0 <= i < j < |bs| ==> bs[i] != bs[j]
  }

  /** A piece exactly as `add_blocks` makes the one of kind `k`. */
  ghost predicate Pristine(t: Tetrimino, k: Kind)
    reads t
  {
    t.id == Id(k) && t.name == Name(k) && t.shape == BagShape(k) &&
    t.height == Side(k) && t.width == Side(k) &&
    t.canMove && t.col == 0 && t.row == 0
  }

  class Tetrimino {
    const id: int
    const name: string
    var shape: Board
    const height: nat
    const width: nat
    var canMove: bool
    var col: int
    var row: int

    /** The matrix keeps the size measured when the piece was made. */
    ghost predicate Valid()
      reads this
    {
      height > 0 && IsGrid(shape, height, width)
    }

    /** `Tetrimino.__init__`: the box size is measured from the matrix; the piece starts at (0, 0), free to move. */
    constructor (id: int, name: string, shape: Board)
      requires |shape| > 0 && IsRect(shape)
      ensures Valid() && this.id == id && this.name == name && this.shape == shape
      ensures height == |shape| && width == |shape[0]|
      ensures canMove && col == 0 && row == 0
    {
      this.id := id;
      this.name := name;
      this.shape := shape;
      height := |shape|;
      width := |shape[0]|;
      canMove := true;
      col := 0;
      row := 0;
    }

    /** `move(col, row)`: shift by a column and a row offset. */
    method Move(col: int, row: int)
      modifies this
      ensures this.col == old(this.col) + col && this.row == old(this.row) + row
      ensures shape == old(shape) && canMove == old(canMove)
    {
      this.col := this.col + col;
      this.row := this.row + row;
    }

    /**
     * `rotate(times)`: `times` quarter-turns, each a transpose followed by
     * reversing the first `width` rows. The piece's matrix keeps its cells.
     */
    method Rotate(times: nat)
      requires Valid() && height == width
      modifies this
      ensures Valid() && shape == Turns(old(shape), times)
      ensures Cells(shape) == Cells(old(shape))
      ensures col == old(col) && row == old(row) && canMove == old(canMove)
    {
      ghost var m0 := shape;
      for t := 0 to times
        invariant Valid() && shape == Turns(m0, t)
        invariant col == old(col) && row == old(row) && canMove == old(canMove)
      {
        QuarterTurn();
      }
      TurnsKeep(m0, width, times);
    }

    /** One round of `rotate`: transpose, then reverse each of the first `width` rows. */
    method QuarterTurn()
      requires Valid() && height == width
      modifies this
      ensures Valid() && shape == Turn(old(shape))
      ensures col == old(col) && row == old(row) && canMove == old(canMove)
    {
      ghost var before := shape;
      shape := Transpose(shape);
      ghost var tr := shape;
      for i := 0 to width
        invariant |shape| == |tr| == width
        invariant forall k :: 0 <= k < i ==> shape[k] == Reverse(tr[k])
        invariant forall k :: i <= k < |tr| ==> shape[k] == tr[k]
        invariant col == old(col) && row == old(row) && canMove == old(canMove)
      {
        shape := shape[i := Reverse(shape[i])];
      }
      ReversedTransposeIsTurn(before, shape);
    }
  }

  class Bag {
    var blocks: seq<Tetrimino>

    /** `Bag.__init__`: an empty bag. */
    constructor ()
      ensures blocks == []
    {
      blocks := [];
    }

    /** `add_blocks`: seven new pieces, one of each kind, with ids 1..7 in kind order. */
    method AddBlocks() returns (bs: seq<Tetrimino>)
      modifies this
      ensures blocks == bs && |bs| == 7 && Distinct(bs)
      ensures forall i :: 0 <= i < 7 ==> fresh(bs[i])
      ensures forall i :: 0 <= i < 7 ==> Pristine(bs[i], Kinds[i])
      ensures forall i :: 0 <= i < 7 ==> bs[i].Valid()
    {
      var o := Make(O);
      var i := Make(I);
      var t := Make(T);
      var j := Make(J);
      var l := Make(L);
      var z := Make(Z);
      var s := Make(S);
      blocks := [o, i, t, j, l, z, s];
      bs := blocks;
      assert forall n :: 0 <= n < 7 ==> bs[n].id == n + 1;
      IdsApart(bs);
    }

    /** One `Tetrimino(id, name, matrix)` call of `add_blocks`. */
    static method Make(k: Kind) returns (t: Tetrimino)
      ensures fresh(t) && t.id == Id(k) && t.name == Name(k) && t.shape == BagShape(k)
      ensures t.height == Side(k) && t.width == Side(k) && IsGrid(t.shape, t.height, t.width) && t.height > 0
      ensures t.canMove && t.col == 0 && t.row == 0
    {
      BagShapeIsTaggedTable(k);
      t := new Tetrimino(Id(k), Name(k), BagShape(k));
    }

    /**
     * `shuffle`: `random.shuffle` swaps position `i` with a position
     * `picks[i] <= i`, for `i` from the last index down to 1. The random
     * draws are the parameter `picks`. The result is a permutation.
     */
    method Shuffle(picks: seq<nat>) returns (bs: seq<Tetrimino>)
      requires |picks| == |blocks| && forall i :: 0 <= i < |picks| ==> picks[i] <= i
      modifies this
      ensures blocks == bs && |bs| == |old(blocks)|
      ensures multiset(bs) == multiset(old(blocks))
      ensures Distinct(old(blocks)) ==> Distinct(bs)
      ensures multiset(Ids(bs)) == multiset(Ids(old(blocks)))
      ensures forall n :: 0 <= n < |bs| ==> unchanged(old(blocks)[n])
    {
      var i := |blocks|;
      while i > 1
        invariant 0 <= i <= |blocks| || (i == 0 && |blocks| == 0)
        invariant |blocks| == |old(blocks)| == |picks|
        invariant multiset(blocks) == multiset(old(blocks))
        invariant Distinct(old(blocks)) ==> Distinct(blocks)
        invariant multiset(Ids(blocks)) == multiset(Ids(old(blocks)))
      {
        i := i - 1;
        var j := picks[i];
        ghost var before := blocks;
        blocks := blocks[i := blocks[j]][j := blocks[i]];
        SwapKeeps(before, i, j);
        SwapKeepsIds(before, i, j);
      }
      bs := blocks;
    }

    /** `fill`: make the seven pieces and shuffle them: one piece of each kind, in some order. */
    method Fill(picks: seq<nat>) returns (bs: seq<Tetrimino>)
      requires |picks| == 7 && forall i :: 0 <= i < 7 ==> picks[i] <= i
      modifies this
      ensures blocks == bs && |bs| == 7 && Distinct(bs)
      ensures forall i :: 0 <= i < 7 ==>
        fresh(bs[i]) && bs[i].Valid() && 1 <= bs[i].id <= 7 && Pristine(bs[i], KindOf(bs[i].id))
      ensures multiset(Ids(bs)) == multiset{1, 2, 3, 4, 5, 6, 7}
    {
      var made := AddBlocks();
      SevenIds(made);
      label Made:
      bs := Shuffle(picks);
      StillPristine@Made(made);
      ShuffledPristine(made, bs);
    }

    /** `empty`. */
    method Empty()
      modifies this
      ensures blocks == []
    {
      blocks := [];
    }
  }

  /** One swap of a shuffle keeps the multiset and distinctness. */
  lemma SwapKeeps(s: seq<Tetrimino>, i: int, j: int)
    requires 0 <= j <= i < |s|
    ensures multiset(s[i := s[j]][j := s[i]]) == multiset(s)
    ensures Distinct(s) ==> Distinct(s[i := s[j]][j := s[i]])
  {
    var t := s[i := s[j]][j := s[i]];
    if Distinct(s) {
      forall a, b | 0 <= a < b < |t| ensures t[a] != t[b] {
        var a' := if a == i then j else if a == j then i else a;
        var b' := if b == i then j else if b == j then i else b;
        assert t[a] == s[a'] && t[b] == s[b'];
        assert a' != b';
        if a' < b' {
        } else {
          assert s[b'] != s[a'];
        }
      }
    }
  }

  /** One swap of a shuffle keeps the multiset of ids. */
  lemma SwapKeepsIds(s: seq<Tetrimino>, i: int, j: int)
    requires 0 <= j <= i < |s|
    ensures multiset(Ids(s[i := s[j]][j := s[i]])) == multiset(Ids(s))
  {
    var ids := Ids(s);
    assert Ids(s[i := s[j]][j := s[i]]) == ids[i := ids[j]][j := ids[i]];
  }
}
