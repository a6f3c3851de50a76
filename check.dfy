/**
 * Check detection: a side is in check when some piece of the other side
 * has the square of its king among its pseudo-legal destinations.
 */
module Check {
  import opened Chessboard
  import opened MoveGen

  /** The last cell below n, in row-major order, holding the king of colour c. */
  function LastKingBelow(b: Board, c: Color, n: nat): (r: Option<nat>)
    requires n <= 64
    ensures r.Some? ==> r.value < n && b[r.value] == Some(Piece(King, c))
    ensures r.Some? ==> forall i :: r.value < i < n ==> b[i] != Some(Piece(King, c))
    ensures r.None? ==> forall i :: 0 <= i < n ==> b[i] != Some(Piece(King, c))
  {
    if n == 0 then None
    else if b[n - 1] == Some(Piece(King, c)) then Some(n - 1)
    else LastKingBelow(b, c, n - 1)
  }

  /**
   * Where the row-major scan leaves the king of colour c: the last such
   * king found, so no later square holds one.
   */
  function KingPos(b: Board, c: Color): (k: Pos)
    requires HasKing(b, c)
    ensures InBounds(k) && At(b, k) == Some(Piece(King, c))
    ensures forall q :: InBounds(q) && Index(q) > Index(k) ==> At(b, q) != Some(Piece(King, c))
  {
    var found := LastKingBelow(b, c, 64);
    assert found.Some? by {
      var p :| InBounds(p) && At(b, p) == Some(Piece(King, c));
      assert b[Index(p)] == Some(Piece(King, c));
    }
    PosOf(found.value)
  }

  /**
   * The piece on from is of the side opposite to c and reaches target; its
   * destinations are generated for its own side, which is Opposite(c).
   */
  predicate Attacks(b: Board, from: Pos, c: Color, target: Pos)
    requires InBounds(from)
  {
    IsEnemy(b, from, c) && target in PseudoMoves(b, from, Opposite(c))
  }

  /**
   * Some piece of the side opposite to c reaches the square of c's king,
   * the square the scan keeps. Only an enemy piece on the board can do so.
   */
  predicate IsInCheck(b: Board, c: Color): (r: bool)
    requires HasKing(b, c)
    ensures r ==> exists p :: InBounds(p) && IsEnemy(b, p, c)
  {
    var k := KingPos(b, c);
    exists r, col :: 0 <= r < 8 && 0 <= col < 8 && Attacks(b, Pos(r, col), c, k)
  }

  /** The same squares hold c's king on both boards. */
  predicate SameKings(b1: Board, b2: Board, c: Color) {
    forall i :: 0 <= i < 64 ==> (b1[i] == Some(Piece(King, c)) <==> b2[i] == Some(Piece(King, c)))
  }

  lemma {:induction false} LastKingBelowReadsKings(b1: Board, b2: Board, c: Color, n: nat)
    requires n <= 64 && SameKings(b1, b2, c)
    ensures LastKingBelow(b1, c, n) == LastKingBelow(b2, c, n)
  {
    if n > 0 {
      LastKingBelowReadsKings(b1, b2, c, n - 1);
    }
  }

  /**
   * Check detection reads only the occupancy of the board, the squares of
   * c's king and the pieces of the other side: two boards agreeing on
   * these agree on whether c is in check.
   */
  lemma IsInCheckReadsOccupancy(b1: Board, b2: Board, c: Color)
    requires HasKing(b1, c) && HasKing(b2, c)
    requires SameOccupancy(b1, b2) && SameKings(b1, b2, c)
    requires forall q :: InBounds(q) && IsEnemy(b1, q, c) ==> At(b1, q) == At(b2, q)
    ensures IsInCheck(b1, c) == IsInCheck(b2, c)
  {
    LastKingBelowReadsKings(b1, b2, c, 64);
    var k := KingPos(b1, c);
    assert KingPos(b2, c) == k;
    forall r, col | 0 <= r < 8 && 0 <= col < 8
      ensures Attacks(b1, Pos(r, col), c, k) == Attacks(b2, Pos(r, col), c, k)
    {
      var q := Pos(r, col);
      OccupancyAt(b1, b2, q, c);
      if IsEnemy(b1, q, c) {
        PseudoMovesReadOccupancy(b1, b2, q, Opposite(c));
      }
    }
  }
}
