/**
 * The legality filter: a pseudo-legal move is kept when, after the piece
 * is relocated on a copy of the board, the mover's king is not in check.
 */
module Legality {
  import opened Chessboard
  import opened MoveGen
  import opened Check

  /**
   * a is s with some elements left out, the rest in their order.
   * Checked from the back, as the filters below are built.
   */
  predicate IsSubsequence(a: seq<Pos>, s: seq<Pos>)
    decreases |s|
  {
    if a == [] then true
    else if s == [] then false
    else (a[|a| - 1] == s[|s| - 1] && IsSubsequence(a[..|a| - 1], s[..|s| - 1]))
         || IsSubsequence(a, s[..|s| - 1])
  }

  /**
   * Relocating the piece on from to to on the live board leaves side c in
   * check. The live board always keeps c's king here, because to never
   * holds a piece of colour c. A move is only rejected while some enemy
   * piece other than the one it captures is on the board.
   */
  predicate WouldBeInCheck(live: Board, from: Pos, to: Pos, c: Color): (r: bool)
    requires InBounds(from) && InBounds(to)
    requires HasKing(live, c) && !IsOwn(live, to, c)
    ensures r ==> exists q :: InBounds(q) && q != to && IsEnemy(live, q, c)
  {
    var sim := Simulate(live, from, to);
    var inCheck := IsInCheck(sim, c);
    assert inCheck ==> exists q :: InBounds(q) && q != to && IsEnemy(live, q, c) by {
      if inCheck {
        var q :| InBounds(q) && IsEnemy(sim, q, c);
        if q == to {
          assert IsEnemy(live, from, c) && from != to;
        } else {
          assert IsEnemy(live, q, c);
        }
      }
    }
    inCheck
  }

  /** The destinations of ms, in order, after which side c is not in check. */
  function SafeMoves(b: Board, from: Pos, c: Color, ms: seq<Pos>): (r: seq<Pos>)
    requires InBounds(from) && HasKing(b, c)
    requires forall m :: m in ms ==> InBounds(m) && !IsOwn(b, m, c)
    ensures IsSubsequence(r, ms)
    ensures forall m :: m in r <==> m in ms && !IsInCheck(Simulate(b, from, m), c)
  {
    if ms == [] then []
    else
      var m := ms[|ms| - 1];
      var rest := SafeMoves(b, from, c, ms[..|ms| - 1]);
      assert forall x :: x in ms <==> x in ms[..|ms| - 1] || x == m by {
        assert ms == ms[..|ms| - 1] + [m];
      }
      if !WouldBeInCheck(b, from, m, c) then
        assert (rest + [m])[..|rest|] == rest;
        rest + [m]
      else rest
  }

  /**
   * The legal destinations of the piece on p for side turn: its
   * pseudo-legal destinations, filtered in order by the check-safety test.
   */
  function LegalMoves(b: Board, p: Pos, turn: Color): (r: seq<Pos>)
    requires InBounds(p)
    requires IsOwn(b, p, turn) ==> HasKing(b, turn)
    ensures !IsOwn(b, p, turn) ==> r == []
    ensures forall m :: m in r ==> InBounds(m) && m != p && !IsOwn(b, m, turn)
  {
    if !IsOwn(b, p, turn) then []
    else SafeMoves(b, p, turn, PseudoMoves(b, p, turn))
  }

  /**
   * The legal moves are the pseudo-legal ones in their order with some
   * left out; a pseudo-legal move is kept exactly when it does not leave
   * the mover in check, so every dropped one does.
   */
  lemma LegalMovesFilterPseudoMoves(b: Board, p: Pos, turn: Color)
    requires InBounds(p) && IsOwn(b, p, turn) && HasKing(b, turn)
    ensures IsSubsequence(LegalMoves(b, p, turn), PseudoMoves(b, p, turn))
    ensures forall m :: m in LegalMoves(b, p, turn) <==>
              m in PseudoMoves(b, p, turn) && !IsInCheck(Simulate(b, p, m), turn)
  {
  }

  /**
   * The committed board and the legality filter's copy differ at most in the
   * destination, where a queen may stand instead of the moving pawn; both
   * keep the mover's king, and the mover is in check on one exactly when on
   * the other.
   */
  lemma CommitAgreesWithSimulationOnCheck(b: Board, p: Pos, turn: Color, m: Pos)
    requires InBounds(p) && InBounds(m) && p != m && IsOwn(b, p, turn) && !IsOwn(b, m, turn)
    requires HasKing(b, turn)
    ensures HasKing(ApplyMove(b, p, m), turn)
    ensures IsInCheck(ApplyMove(b, p, m), turn) == IsInCheck(Simulate(b, p, m), turn)
  {
    var a, s := ApplyMove(b, p, m), Simulate(b, p, m);
    if !Promotes(At(b, p).value, m) {
      ApplyMoveIsSimulateUnlessPromotion(b, p, m);
    } else {
      assert a[Index(m)] == Some(Piece(Queen, turn)) && s[Index(m)] == Some(Piece(Pawn, turn));
      forall i | 0 <= i < 64 && i != Index(m)
        ensures a[i] == s[i]
      {
        PosOfIndex(PosOf(i));
      }
      assert SameOccupancy(a, s) && SameKings(a, s, turn);
      var k :| InBounds(k) && At(s, k) == Some(Piece(King, turn));
      assert At(a, k) == Some(Piece(King, turn));
      IsInCheckReadsOccupancy(a, s, turn);
    }
  }

  /**
   * Committing a legal move never leaves the mover in check: the committed
   * board agrees on check with the simulated one the legality filter examined.
   */
  lemma LegalMoveKeepsKingSafe(b: Board, p: Pos, turn: Color, m: Pos)
    requires InBounds(p) && IsOwn(b, p, turn) && HasKing(b, turn)
    requires m in LegalMoves(b, p, turn)
    ensures HasKing(ApplyMove(b, p, m), turn) && !IsInCheck(ApplyMove(b, p, m), turn)
  {
    CommitAgreesWithSimulationOnCheck(b, p, turn, m);
  }

  /**
   * The generator: nothing for a square that is empty or holds the other
   * side's piece, otherwise the destinations by piece kind, then (when
   * validateCheck) only those that keep the mover out of check. The check
   * test relocates on the board it is given, which is the live board at
   * every validated call.
   */
  method GetLegalMoves(b: Board, p: Pos, turn: Color, validateCheck: bool) returns (moves: seq<Pos>)
    requires InBounds(p)
    requires validateCheck && IsOwn(b, p, turn) ==> HasKing(b, turn)
    ensures moves == if validateCheck then LegalMoves(b, p, turn) else PseudoMoves(b, p, turn)
  {
    moves := [];
    var cell := At(b, p);
    if cell.None? || cell.value.color != turn {
      return;
    }
    var piece := cell.value;
    if piece.kind == Pawn {
      moves := ScanPawn(b, p, piece.color);
    } else if piece.kind == Knight {
      moves := ScanSteps(b, p, piece.color, KnightJumps);
    } else if piece.kind == Rook || piece.kind == Bishop || piece.kind == Queen {
      var dirs := if piece.kind == Rook then RookDirs
                  else if piece.kind == Bishop then BishopDirs
                  else QueenDirs;
      moves := ScanSlides(b, p, piece.color, dirs);
    } else {
      moves := ScanSteps(b, p, piece.color, QueenDirs);
    }
    assert moves == PseudoMoves(b, p, turn);
    if validateCheck {
      moves := SafeMoves(b, p, piece.color, moves);
    }
  }
}
