/**
 * The board model: pieces, squares, the 8x8 grid (kept as a row-major
 * arena of 64 cells), the start position, and the two ways a piece is
 * relocated: the check-test simulation and the committed move.
 */
module Chessboard {

  datatype Option<T> = None | Some(value: T)

  datatype Color = White | Black

  datatype Kind = Pawn | Knight | Bishop | Rook | Queen | King

  /** A piece is an immutable value: its kind and its side. */
  datatype Piece = Piece(kind: Kind, color: Color)

  /** A square, given by row (0 = black's back rank) and column. */
  datatype Pos = Pos(row: int, col: int)

  datatype Move = Move(from: Pos, to: Pos)

  type Cell = Option<Piece>

  /** Row r, column c of the grid is cell r * 8 + c. */
  type Board = b: seq<Cell> | |b| == 64 witness seq(64, i => None)

  function Opposite(c: Color): (o: Color)
    ensures o != c
  {
    if c == White then Black else White
  }

  predicate InBounds(p: Pos) {
    0 <= p.row < 8 && 0 <= p.col < 8
  }

  function Index(p: Pos): (i: nat)
    requires InBounds(p)
    ensures i < 64
    ensures forall q :: InBounds(q) && q != p ==> q.row * 8 + q.col != i
  {
    p.row * 8 + p.col
  }

  function PosOf(i: nat): (p: Pos)
    requires i < 64
    ensures InBounds(p) && Index(p) == i
  {
    Pos(i / 8, i % 8)
  }

  lemma PosOfIndex(p: Pos)
    requires InBounds(p)
    ensures PosOf(Index(p)) == p
  {
  }

  function At(b: Board, p: Pos): Cell
    requires InBounds(p)
  {
    b[Index(p)]
  }

  /** The square holds a piece of colour c. */
  predicate IsOwn(b: Board, p: Pos, c: Color)
    requires InBounds(p)
  {
    At(b, p).Some? && At(b, p).value.color == c
  }

  /** The square holds a piece of the colour opposite to c. */
  predicate IsEnemy(b: Board, p: Pos, c: Color)
    requires InBounds(p)
  {
    At(b, p).Some? && At(b, p).value.color != c
  }

  ghost predicate HasKing(b: Board, c: Color) {
    exists p :: InBounds(p) && At(b, p) == Some(Piece(King, c))
  }

  // ---------------------------------------------------------------------
  // The start position
  // ---------------------------------------------------------------------

  const BackRank: seq<Kind> := [Rook, Knight, Bishop, Queen, King, Bishop, Knight, Rook]

  function BackRow(c: Color): seq<Cell> {
    seq(8, j requires 0 <= j < 8 => Some(Piece(BackRank[j], c)))
  }

  function PawnRow(c: Color): seq<Cell> {
    seq(8, j => Some(Piece(Pawn, c)))
  }

  function EmptyRows(n: nat): seq<Cell> {
    seq(8 * n, j => None)
  }

  /**
   * Black's back rank, black's pawns, four empty ranks, white's pawns,
   * white's back rank, pushed row by row.
   */
  function InitialBoard(): (b: Board)
    ensures forall p :: InBounds(p) && p.row == 0 ==> At(b, p) == Some(Piece(BackRank[p.col], Black))
    ensures forall p :: InBounds(p) && p.row == 1 ==> At(b, p) == Some(Piece(Pawn, Black))
    ensures forall p :: InBounds(p) && 2 <= p.row <= 5 ==> At(b, p) == None
    ensures forall p :: InBounds(p) && p.row == 6 ==> At(b, p) == Some(Piece(Pawn, White))
    ensures forall p :: InBounds(p) && p.row == 7 ==> At(b, p) == Some(Piece(BackRank[p.col], White))
  {
    BackRow(Black) + PawnRow(Black) + EmptyRows(4) + PawnRow(White) + BackRow(White)
  }

  lemma InitialBoardHasKings()
    ensures HasKing(InitialBoard(), White) && HasKing(InitialBoard(), Black)
  {
    assert At(InitialBoard(), Pos(7, 4)) == Some(Piece(King, White));
    assert At(InitialBoard(), Pos(0, 4)) == Some(Piece(King, Black));
  }

  // ---------------------------------------------------------------------
  // Relocating a piece
  // ---------------------------------------------------------------------

  /**
   * The legality filter's copy of the board with one piece relocated: the
   * destination takes whatever the origin held, the origin is emptied,
   * and there is no promotion. The input board is a value and is not
   * changed. A king survives unless the destination held a piece of its
   * own colour.
   */
  function Simulate(b: Board, from: Pos, to: Pos): (r: Board)
    requires InBounds(from) && InBounds(to)
    ensures At(r, from) == None
    ensures from != to ==> At(r, to) == At(b, from)
    ensures forall q :: InBounds(q) && q != from && q != to ==> At(r, q) == At(b, q)
    ensures forall c :: HasKing(b, c) && !IsOwn(b, to, c) ==> HasKing(r, c)
  {
    var r := b[Index(to) := At(b, from)][Index(from) := None];
    assert forall c :: HasKing(b, c) && !IsOwn(b, to, c) ==> HasKing(r, c) by {
      forall c | HasKing(b, c) && !IsOwn(b, to, c)
        ensures HasKing(r, c)
      {
        var k :| InBounds(k) && At(b, k) == Some(Piece(King, c));
        if k == from {
          assert At(r, to) == Some(Piece(King, c));
        } else {
          assert At(r, k) == Some(Piece(King, c));
        }
      }
    }
    r
  }

  /** A pawn landing on either end rank is replaced by a queen. */
  predicate Promotes(piece: Piece, to: Pos) {
    piece.kind == Pawn && (to.row == 0 || to.row == 7)
  }

  /** What the destination holds after the committed move. */
  function Landed(piece: Piece, to: Pos): Piece {
    if Promotes(piece, to) then Piece(Queen, piece.color) else piece
  }

  /**
   * The board after a committed move: the origin is emptied, the
   * destination holds the moved piece (a queen of its colour when a pawn
   * reaches row 0 or 7), and every other square is as it was.
   */
  function ApplyMove(b: Board, from: Pos, to: Pos): (r: Board)
    requires InBounds(from) && InBounds(to) && At(b, from).Some?
    ensures At(r, from) == None
    ensures from != to ==> At(r, to) == Some(Landed(At(b, from).value, to))
    ensures forall q :: InBounds(q) && q != from && q != to ==> At(r, q) == At(b, q)
  {
    b[Index(to) := Some(Landed(At(b, from).value, to))][Index(from) := None]
  }

  /** Without a promotion the committed move and the simulation agree. */
  lemma ApplyMoveIsSimulateUnlessPromotion(b: Board, from: Pos, to: Pos)
    requires InBounds(from) && InBounds(to) && At(b, from).Some?
    requires from != to
    ensures !Promotes(At(b, from).value, to) <==> ApplyMove(b, from, to) == Simulate(b, from, to)
  {
    if Promotes(At(b, from).value, to) {
      assert At(ApplyMove(b, from, to), to) != At(Simulate(b, from, to), to);
    }
  }
}
