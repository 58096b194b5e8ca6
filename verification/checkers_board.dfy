/** The checkers board of `server/checkersGame.js`: an 8×8 grid of optional
    pieces, the pieces themselves, and the initial placement of a player's
    twelve men on the dark squares of their three back rows. */
module CheckersBoard {
  import opened Common

  /** A row or column index on the board. A client's move may name squares
      off it; `Checkers.SubmitMove` deals with those before any square is read. */
  type Coord = x: int | 0 <= x < 8

  datatype Color = White | Black

  /** The source's piece id is the string `${owner}_${index}`. Because the index
      is a run of digits with no `_`, that string determines the pair, so the
      pair is an exact stand-in for it. */
  datatype PieceId = PieceId(owner: string, index: nat)

  /** A man or a king. The source shares one object between the board cell and
      the owner's piece list; here both hold a copy and every update writes both. */
  datatype Piece = Piece(id: PieceId, owner: string, isKing: bool, row: Coord, col: Coord)

  predicate IsGrid(b: seq<seq<Option<Piece>>>)
  {
    |b| == 8 && forall r :: 0 <= r < 8 ==> |b[r]| == 8
  }

  type Board = b: seq<seq<Option<Piece>>> | IsGrid(b) witness seq(8, _ => seq(8, _ => None))

  /** `board[row][col]`. */
  function At(b: Board, r: Coord, c: Coord): Option<Piece>
  {
    b[r][c]
  }

  /** `board[row][col] = x`: that cell changes, every other cell keeps its content. */
  function Set(b: Board, r: Coord, c: Coord, x: Option<Piece>): (b': Board)
    ensures At(b', r, c) == x
    ensures forall r': Coord, c': Coord :: (r' != r || c' != c) ==> At(b', r', c') == At(b, r', c')
  {
    b[r := b[r][c := x]]
  }

  /** `initializeBoard`: every cell empty. */
  function EmptyBoard(): (b: Board)
    ensures forall r: Coord, c: Coord :: At(b, r, c).None?
  {
    seq(8, _ => seq(8, _ => None))
  }

  predicate IsDark(r: int, c: int)
  {
    (r + c) % 2 == 1
  }

  /** White's men start on rows 5–7, every other colour's on rows 0–2. */
  function StartRow(color: Color): Coord
  {
    if color == White then 5 else 0
  }

  /** The column of the k-th dark square (counting from column 0) of a row. */
  function DarkCol(row: int, k: int): Coord
    requires 0 <= k < 4
  {
    2 * k + (if row % 2 == 0 then 1 else 0)
  }

  /** How many dark squares of a row lie left of column `col`. */
  function DarkBefore(row: int, col: int): int
  {
    if row % 2 == 0 then col / 2 else (col + 1) / 2
  }

  /** The i-th piece created for a player: the source visits the three rows top
      to bottom and each row left to right, numbering dark squares as it goes. */
  function InitialPiece(owner: string, color: Color, i: int): Piece
    requires 0 <= i < 12
  {
    var row := StartRow(color) + i / 4;
    Piece(PieceId(owner, i), owner, false, row, DarkCol(row, i % 4))
  }

  function InitialPieces(owner: string, color: Color): (ps: seq<Piece>)
    ensures |ps| == 12
    ensures forall i :: 0 <= i < 12 ==> ps[i] == InitialPiece(owner, color, i)
  {
    seq(12, i requires 0 <= i < 12 => InitialPiece(owner, color, i))
  }

  /** No two pieces of a list stand on the same square. */
  predicate DistinctSquares(ps: seq<Piece>)
  {
    forall i, j :: 0 <= i < j < |ps| ==> ps[i].row != ps[j].row || ps[i].col != ps[j].col
  }

  /** `createPieces`: the nested loop over rows and columns of the source,
      producing exactly the closed-form list `InitialPieces`. */
  method CreatePieces(owner: string, color: Color) returns (ps: seq<Piece>)
    ensures ps == InitialPieces(owner, color)
  {
    ps := [];
    var startRow: int := StartRow(color);
    var row := startRow;
    while row < startRow + 3
      invariant startRow <= row <= startRow + 3
      invariant |ps| == 4 * (row - startRow)
      invariant forall i :: 0 <= i < |ps| ==> ps[i] == InitialPiece(owner, color, i)
    {
      var col := 0;
      while col < 8
        invariant 0 <= col <= 8
        invariant |ps| == 4 * (row - startRow) + DarkBefore(row, col)
        invariant forall i :: 0 <= i < |ps| ==> ps[i] == InitialPiece(owner, color, i)
      {
        if (row + col) % 2 == 1 {
          var k := |ps|;
          assert k / 4 == row - startRow && k % 4 == DarkBefore(row, col);
          ps := ps + [Piece(PieceId(owner, k), owner, false, row, col)];
        }
        col := col + 1;
      }
      row := row + 1;
    }
  }

  /** Each initial piece is an unpromoted man of the given owner, numbered by
      its place in the list, on a dark square of the colour's three start rows. */
  lemma InitialPiecesOnDarkStartRows(owner: string, color: Color)
    ensures forall i :: 0 <= i < 12 ==>
      var p := InitialPieces(owner, color)[i];
      && p.id == PieceId(owner, i) && p.owner == owner && !p.isKing
      && IsDark(p.row, p.col)
      && StartRow(color) <= p.row < StartRow(color) + 3
  {
    forall i | 0 <= i < 12
      ensures IsDark(InitialPiece(owner, color, i).row, InitialPiece(owner, color, i).col)
    {
      var row := StartRow(color) + i / 4;
      var k := i % 4;
      assert row % 2 == 0 ==> (row + (2 * k + 1)) % 2 == 1;
      assert row % 2 == 1 ==> (row + 2 * k) % 2 == 1;
    }
  }

  /** No two initial pieces share a square. */
  lemma InitialPiecesDistinct(owner: string, color: Color)
    ensures DistinctSquares(InitialPieces(owner, color))
  {
    var ps := InitialPieces(owner, color);
    forall i, j | 0 <= i < j < 12
      ensures ps[i].row != ps[j].row || ps[i].col != ps[j].col
    {
      if i / 4 == j / 4 {
        assert i % 4 != j % 4;
      }
    }
  }

  /** Every dark square of the colour's three start rows receives a piece. */
  lemma InitialPiecesCoverStartRows(owner: string, color: Color)
    ensures forall r: Coord, c: Coord :: StartRow(color) <= r < StartRow(color) + 3 && IsDark(r, c) ==>
      exists i :: 0 <= i < 12 && InitialPieces(owner, color)[i].row == r && InitialPieces(owner, color)[i].col == c
  {
    var ps := InitialPieces(owner, color);
    var s := StartRow(color);
    forall r: Coord, c: Coord | s <= r < s + 3 && IsDark(r, c)
      ensures exists i :: 0 <= i < 12 && ps[i].row == r && ps[i].col == c
    {
      var i := 4 * (r - s) + c / 2;
      assert i / 4 == r - s && i % 4 == c / 2;
      assert ps[i].row == r && ps[i].col == c;
    }
  }

  /** `placePiecesOnBoard`: each piece is written to its own square, in list order. */
  function PlacePieces(b: Board, ps: seq<Piece>): (b': Board)
    ensures forall r: Coord, c: Coord ::
      (forall i :: 0 <= i < |ps| ==> ps[i].row != r || ps[i].col != c) ==> At(b', r, c) == At(b, r, c)
    ensures DistinctSquares(ps) ==> forall i :: 0 <= i < |ps| ==> At(b', ps[i].row, ps[i].col) == Some(ps[i])
    decreases |ps|
  {
    if ps == [] then b
    else
      var b1 := Set(b, ps[0].row, ps[0].col, Some(ps[0]));
      var rest := PlacePieces(b1, ps[1..]);
      assert forall i :: 1 <= i < |ps| ==> ps[i] == ps[1..][i - 1];
      rest
  }
}
