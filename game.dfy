/**
 * The live game: a board of 64 cells updated in place and the side to
 * move. A committed move promotes, empties the origin and passes the turn;
 * the computer's move collects black's legal moves, lets the tier choose
 * one and commits it.
 */
module ChessGame {
  import opened Chessboard
  import opened Status
  import opened Opponent

  class Game {
    var cells: array<Cell>
    var turn: Color

    ghost predicate Valid()
      reads this
    {
      cells.Length == 64
    }

    /** The current position as a value. */
    function Position(): Board
      reads this, cells
      requires Valid()
    {
      cells[..]
    }

    /** A new game: the start position with white to move. */
    constructor ()
      ensures Valid() && fresh(cells)
      ensures Position() == InitialBoard() && turn == White
    {
      var init := InitialBoard();
      var a := new Cell[64](i requires 0 <= i < 64 => init[i]);
      assert a[..] == init;
      cells := a;
      turn := White;
    }

    /**
     * Commits the move from from to to: the destination takes the piece,
     * or a queen of its colour when a pawn lands on row 0 or 7, the origin
     * is emptied, and the turn passes to the other side.
     */
    method MovePiece(from: Pos, to: Pos)
      requires Valid() && InBounds(from) && InBounds(to) && At(Position(), from).Some?
      modifies this, cells
      ensures Valid() && cells == old(cells)
      ensures Position() == ApplyMove(old(Position()), from, to)
      ensures turn == Opposite(old(turn))
    {
      var piece := cells[Index(from)].value;
      if piece.kind == Pawn && (to.row == 0 || to.row == 7) {
        cells[Index(to)] := Some(Piece(Queen, piece.color));
      } else {
        cells[Index(to)] := Some(piece);
      }
      cells[Index(from)] := None;
      turn := if turn == White then Black else White;
    }

    /**
     * The computer's move for black: when black has no legal move nothing
     * changes; otherwise one move the tier admits is committed.
     */
    method AiMove(tier: Tier)
      requires Valid() && KingPresentIfAnyPiece(Position(), Black)
      modifies this, cells
      ensures Valid() && cells == old(cells)
      ensures AllMoves(old(Position()), Black) == [] ==>
                Position() == old(Position()) && turn == old(turn)
      ensures AllMoves(old(Position()), Black) != [] ==>
                exists m :: m in AllMoves(old(Position()), Black)
                            && Admissible(old(Position()), AllMoves(old(Position()), Black), tier, m)
                            && Position() == ApplyMove(old(Position()), m.from, m.to)
                            && turn == Opposite(old(turn))
    {
      var board := cells[..];
      var moves := CollectMoves(board);
      CollectedMovesOnBoard(board);
      var choice := ChooseMove(board, moves, tier);
      if choice.Some? {
        var m := choice.value;
        assert m in moves by {
          match tier
          case Easy =>
          case Medium =>
            if Captures(board, moves) != [] {
              assert m in Captures(board, moves);
            }
          case Hard =>
        }
        MovePiece(m.from, m.to);
      }
    }
  }
}
