/**
 * Game-end classification, and the full list of a side's legal moves in
 * the order a row-major scan of the board collects them.
 */
module Status {
  import opened Chessboard
  import opened Check
  import opened Legality

  datatype GameStatus = Ongoing | Checkmate(winner: Color) | Stalemate

  /** Every validated call the scan makes for side c has c's king on the board. */
  ghost predicate KingPresentIfAnyPiece(b: Board, c: Color) {
    forall p :: InBounds(p) && IsOwn(b, p, c) ==> HasKing(b, c)
  }

  /** Each of targets paired with the origin p, in order. */
  function PairWith(p: Pos, targets: seq<Pos>): (ms: seq<Move>)
    ensures |ms| == |targets|
    ensures forall i :: 0 <= i < |ms| ==> ms[i] == Move(p, targets[i])
    ensures forall m :: m in ms <==> m.from == p && m.to in targets
  {
    if targets == [] then []
    else
      var init := targets[..|targets| - 1];
      var last := targets[|targets| - 1];
      assert forall t :: t in targets <==> t in init || t == last by {
        assert targets == init + [last];
      }
      PairWith(p, init) + [Move(p, last)]
  }

  /** The legal moves of the piece on p, as from/to pairs. */
  function MovesFrom(b: Board, p: Pos, c: Color): (ms: seq<Move>)
    requires InBounds(p) && KingPresentIfAnyPiece(b, c)
  {
    PairWith(p, LegalMoves(b, p, c))
  }

  /** The moves of c's pieces on the first n cells of the row-major scan, in scan order. */
  function MovesBelow(b: Board, c: Color, n: nat): (ms: seq<Move>)
    requires n <= 64 && KingPresentIfAnyPiece(b, c)
  {
    if n == 0 then [] else MovesBelow(b, c, n - 1) + MovesFrom(b, PosOf(n - 1), c)
  }

  /** One more square of the scan appends the moves from that square. */
  lemma MovesBelowStep(b: Board, c: Color, p: Pos)
    requires InBounds(p) && KingPresentIfAnyPiece(b, c)
    ensures MovesBelow(b, c, Index(p) + 1) == MovesBelow(b, c, Index(p)) + MovesFrom(b, p, c)
  {
    PosOfIndex(p);
  }

  /**
   * Whatever the destinations of each square are, appending the pairs of
   * square n - 1 to a list holding those of the squares below it gives a
   * list holding those of the squares below n.
   */
  lemma PairsOfNextSquare(before: seq<Move>, p: Pos, n: nat, dests: Pos -> seq<Pos>)
    requires InBounds(p) && Index(p) + 1 == n
    requires forall m :: m in before <==> InBounds(m.from) && Index(m.from) < n - 1 && m.to in dests(m.from)
    ensures forall m :: m in before + PairWith(p, dests(p)) <==>
              InBounds(m.from) && Index(m.from) < n && m.to in dests(m.from)
  {
    forall m: Move
      ensures m in before + PairWith(p, dests(p)) <==>
              InBounds(m.from) && Index(m.from) < n && m.to in dests(m.from)
    {
      assert m in before + PairWith(p, dests(p)) <==> m in before || m in PairWith(p, dests(p));
    }
  }

  lemma {:induction false} MovesBelowListsEachLegalMove(b: Board, c: Color, n: nat)
    requires n <= 64 && KingPresentIfAnyPiece(b, c)
    ensures forall m :: m in MovesBelow(b, c, n) <==>
              InBounds(m.from) && Index(m.from) < n && m.to in LegalMoves(b, m.from, c)
  {
    if n > 0 {
      var dests := q => if InBounds(q) then LegalMoves(b, q, c) else [];
      var p := PosOf(n - 1);
      MovesBelowListsEachLegalMove(b, c, n - 1);
      assert MovesBelow(b, c, n) == MovesBelow(b, c, n - 1) + PairWith(p, dests(p));
      PairsOfNextSquare(MovesBelow(b, c, n - 1), p, n, dests);
    }
  }

  /**
   * The origins of ms lie among the first n squares of the row-major scan
   * and never go back in that order.
   */
  predicate InScanOrder(ms: seq<Move>, n: nat) {
    (forall i :: 0 <= i < |ms| ==> InBounds(ms[i].from) && Index(ms[i].from) < n)
    && (forall i, j :: 0 <= i < j < |ms| ==> Index(ms[i].from) <= Index(ms[j].from))
  }

  /** Appending the pairs of square n - 1 keeps a list of the squares below it in scan order. */
  lemma PairsKeepScanOrder(before: seq<Move>, p: Pos, n: nat, targets: seq<Pos>)
    requires InBounds(p) && Index(p) + 1 == n && InScanOrder(before, n - 1)
    ensures InScanOrder(before + PairWith(p, targets), n)
  {
    var ms := before + PairWith(p, targets);
    forall i | 0 <= i < |ms|
      ensures InBounds(ms[i].from) && Index(ms[i].from) < n
      ensures i >= |before| ==> ms[i].from == p
    {
      if i >= |before| {
        assert ms[i] == PairWith(p, targets)[i - |before|];
      }
    }
  }

  lemma {:induction false} MovesBelowInScanOrder(b: Board, c: Color, n: nat)
    requires n <= 64 && KingPresentIfAnyPiece(b, c)
    ensures InScanOrder(MovesBelow(b, c, n), n)
  {
    if n > 0 {
      MovesBelowInScanOrder(b, c, n - 1);
      PairsKeepScanOrder(MovesBelow(b, c, n - 1), PosOf(n - 1), n, LegalMoves(b, PosOf(n - 1), c));
    }
  }

  /**
   * All of side c's legal moves: a move is listed exactly when its origin
   * holds a piece of c and its destination is legal for that piece.
   */
  function AllMoves(b: Board, c: Color): (ms: seq<Move>)
    requires KingPresentIfAnyPiece(b, c)
    ensures forall m :: m in ms <==>
              InBounds(m.from) && IsOwn(b, m.from, c) && m.to in LegalMoves(b, m.from, c)
    ensures forall m :: m in ms ==> InBounds(m.to)
    ensures InScanOrder(ms, 64)
  {
    MovesBelowListsEachLegalMove(b, c, 64);
    MovesBelowInScanOrder(b, c, 64);
    MovesBelow(b, c, 64)
  }

  lemma SomeMoveIsListed(b: Board, c: Color, p: Pos)
    requires HasKing(b, c) && InBounds(p) && IsOwn(b, p, c) && |LegalMoves(b, p, c)| > 0
    ensures AllMoves(b, c) != []
  {
    assert Move(p, LegalMoves(b, p, c)[0]) in AllMoves(b, c);
  }

  lemma ListedMoveIsAMove(b: Board, c: Color, m: Move)
    requires HasKing(b, c) && m in AllMoves(b, c)
    ensures exists r, col :: 0 <= r < 8 && 0 <= col < 8 && IsOwn(b, Pos(r, col), c)
                             && |LegalMoves(b, Pos(r, col), c)| > 0
  {
    var p := Pos(m.from.row, m.from.col);
    assert IsOwn(b, p, c) && |LegalMoves(b, p, c)| > 0;
  }

  /** The scan over rows and columns finds a movable piece exactly when the move list is not empty. */
  lemma ScanFindsMoveIffListed(b: Board, c: Color)
    requires HasKing(b, c)
    ensures (exists r, col :: 0 <= r < 8 && 0 <= col < 8 && IsOwn(b, Pos(r, col), c)
                              && |LegalMoves(b, Pos(r, col), c)| > 0)
            <==> AllMoves(b, c) != []
  {
    if exists r, col :: 0 <= r < 8 && 0 <= col < 8 && IsOwn(b, Pos(r, col), c)
                        && |LegalMoves(b, Pos(r, col), c)| > 0 {
      var r, col :| 0 <= r < 8 && 0 <= col < 8 && IsOwn(b, Pos(r, col), c)
                    && |LegalMoves(b, Pos(r, col), c)| > 0;
      SomeMoveIsListed(b, c, Pos(r, col));
    }
    if AllMoves(b, c) != [] {
      ListedMoveIsAMove(b, c, AllMoves(b, c)[0]);
    }
  }

  /**
   * Some square holds a piece of c with at least one legal move, which is
   * the case exactly when c's collected move list is not empty.
   */
  predicate HasAnyMove(b: Board, c: Color): (r: bool)
    requires HasKing(b, c)
    ensures r <==> AllMoves(b, c) != []
  {
    ScanFindsMoveIffListed(b, c);
    exists r, col :: 0 <= r < 8 && 0 <= col < 8 && IsOwn(b, Pos(r, col), c)
                     && |LegalMoves(b, Pos(r, col), c)| > 0
  }

  /**
   * The status for the side to move: checkmate, with the other side as
   * winner, exactly when it has no legal move and is in check; stalemate
   * exactly when it has none and is not in check; otherwise the game goes on.
   */
  function GameStatusOf(b: Board, toMove: Color): (s: GameStatus)
    requires HasKing(b, toMove)
    ensures s.Checkmate? <==> AllMoves(b, toMove) == [] && IsInCheck(b, toMove)
    ensures s.Checkmate? ==> s.winner == Opposite(toMove)
    ensures s == Stalemate <==> AllMoves(b, toMove) == [] && !IsInCheck(b, toMove)
    ensures s == Ongoing <==> AllMoves(b, toMove) != []
  {
    if !HasAnyMove(b, toMove) then
      if IsInCheck(b, toMove) then Checkmate(Opposite(toMove)) else Stalemate
    else Ongoing
  }
}
