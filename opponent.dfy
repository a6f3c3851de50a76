/**
 * The computer opponent (black): it collects every legal black move by a
 * row-major scan and picks one according to the difficulty tier.
 */
module Opponent {
  import opened Chessboard
  import opened Legality
  import opened Status
  import opened Evaluation

  datatype Tier = Easy | Medium | Hard

  predicate OnBoard(ms: seq<Move>) {
    forall i :: 0 <= i < |ms| ==> InBounds(ms[i].from) && InBounds(ms[i].to)
  }

  /** The material score once m is simulated on b. */
  function ScoreAfter(b: Board, m: Move): int
    requires InBounds(m.from) && InBounds(m.to)
  {
    Material(Simulate(b, m.from, m.to))
  }

  /** The moves of ms whose destination is occupied on b, in order. */
  function Captures(b: Board, ms: seq<Move>): (r: seq<Move>)
    requires OnBoard(ms)
    ensures OnBoard(r)
    ensures forall m :: m in r <==> m in ms && At(b, m.to).Some?
  {
    if ms == [] then []
    else
      var init := ms[..|ms| - 1];
      var last := ms[|ms| - 1];
      assert forall m :: m in ms <==> m in init || m == last by {
        assert ms == init + [last];
      }
      var rest := Captures(b, init);
      if At(b, last.to).Some? then rest + [last] else rest
  }

  /**
   * Among the first n moves of ms, ms[k] is the first with the highest
   * score: none of them scores more, and every earlier one scores less.
   */
  predicate FirstBestAmong(b: Board, ms: seq<Move>, n: int, k: int)
    requires OnBoard(ms)
  {
    0 <= k < n <= |ms|
    && (forall j :: 0 <= j < n ==> ScoreAfter(b, ms[j]) <= ScoreAfter(b, ms[k]))
    && (forall j :: 0 <= j < k ==> ScoreAfter(b, ms[j]) < ScoreAfter(b, ms[k]))
  }

  /** ms[k] is the first move of the whole list with the highest score. */
  predicate IsFirstBest(b: Board, ms: seq<Move>, k: int)
    requires OnBoard(ms)
  {
    FirstBestAmong(b, ms, |ms|, k)
  }

  /** One more comparison of the greedy search: a strictly better move takes over. */
  lemma FirstBestStep(b: Board, ms: seq<Move>, n: int, k: int)
    requires OnBoard(ms) && FirstBestAmong(b, ms, n, k) && n < |ms|
    ensures ScoreAfter(b, ms[n]) > ScoreAfter(b, ms[k]) ==> FirstBestAmong(b, ms, n + 1, n)
    ensures ScoreAfter(b, ms[n]) <= ScoreAfter(b, ms[k]) ==> FirstBestAmong(b, ms, n + 1, k)
  {
  }

  /** The first best move is determined uniquely. */
  lemma FirstBestIsUnique(b: Board, ms: seq<Move>, k: int, k': int)
    requires OnBoard(ms) && IsFirstBest(b, ms, k) && IsFirstBest(b, ms, k')
    ensures k == k'
  {
    assert ScoreAfter(b, ms[k]) == ScoreAfter(b, ms[k']);
    assert !(k < k') && !(k' < k);
  }

  /**
   * Offered one capture of a white piece among moves onto empty squares,
   * the greedy search takes the capture: it is the one move that raises
   * the score, so it is the first best and no other index is.
   */
  lemma HardTakesOnlyGainingCapture(b: Board, ms: seq<Move>, j: int)
    requires OnBoard(ms) && 0 <= j < |ms|
    requires forall i :: 0 <= i < |ms| ==> ms[i].from != ms[i].to
    requires IsEnemy(b, ms[j].to, Black)
    requires forall i :: 0 <= i < |ms| && i != j ==> At(b, ms[i].to) == None
    ensures IsFirstBest(b, ms, j)
    ensures forall k :: IsFirstBest(b, ms, k) ==> k == j
  {
    forall i | 0 <= i < |ms|
      ensures ScoreAfter(b, ms[i]) == Material(b) - Signed(At(b, ms[i].to))
    {
      MaterialAfterSimulate(b, ms[i].from, ms[i].to);
    }
    assert ScoreAfter(b, ms[j]) > Material(b);
    forall k | IsFirstBest(b, ms, k)
      ensures k == j
    {
      FirstBestIsUnique(b, ms, k, j);
    }
  }

  /** What each tier may pick from a non-empty move list. */
  predicate Admissible(b: Board, ms: seq<Move>, tier: Tier, m: Move) {
    OnBoard(ms) &&
    match tier
    case Easy => m in ms
    case Medium => m in ms && (Captures(b, ms) != [] ==> m in Captures(b, ms))
    case Hard => exists k :: 0 <= k < |ms| && IsFirstBest(b, ms, k) && m == ms[k]
  }

  /** Appends the moves from p to each of targets, in order. */
  method AppendMovesFrom(moves: seq<Move>, p: Pos, targets: seq<Pos>) returns (moves': seq<Move>)
    ensures moves' == moves + PairWith(p, targets)
  {
    moves' := moves;
    for k := 0 to |targets|
      invariant moves' == moves + PairWith(p, targets[..k])
    {
      assert targets[..k + 1][..k] == targets[..k];
      moves' := moves' + [Move(p, targets[k])];
    }
    assert targets[..|targets|] == targets;
  }

  /** Appends the legal moves of the piece on p when it is black. */
  method CollectFrom(b: Board, p: Pos, moves: seq<Move>) returns (moves': seq<Move>)
    requires InBounds(p) && KingPresentIfAnyPiece(b, Black)
    ensures moves' == moves + MovesFrom(b, p, Black)
  {
    moves' := moves;
    var cell := At(b, p);
    if cell.Some? && cell.value.color == Black {
      var legal := GetLegalMoves(b, p, Black, true);
      moves' := AppendMovesFrom(moves, p, legal);
    }
  }

  /** Scans the board row by row and lists the legal moves of every black piece. */
  method CollectMoves(b: Board) returns (moves: seq<Move>)
    requires KingPresentIfAnyPiece(b, Black)
    ensures moves == AllMoves(b, Black)
  {
    moves := [];
    ghost var scanned := 0;
    for r := 0 to 8
      invariant scanned == r * 8
      invariant moves == MovesBelow(b, Black, scanned)
    {
      for c := 0 to 8
        invariant scanned == r * 8 + c
        invariant moves == MovesBelow(b, Black, scanned)
      {
        MovesBelowStep(b, Black, Pos(r, c));
        moves := CollectFrom(b, Pos(r, c), moves);
        scanned := scanned + 1;
      }
    }
  }

  /** Any one of ms, standing in for a uniformly random index. */
  method PickAny(ms: seq<Move>) returns (m: Move)
    requires ms != []
    ensures m in ms
  {
    var i :| 0 <= i < |ms|;
    m := ms[i];
  }

  /** Scores the board the move leaves behind, on a copy. */
  method SimulateAndEvaluate(b: Board, m: Move) returns (score: int)
    requires InBounds(m.from) && InBounds(m.to)
    ensures score == ScoreAfter(b, m)
  {
    var sim := Simulate(b, m.from, m.to);
    score := EvaluateBoard(sim);
  }

  /**
   * The greedy search: simulates each move, scores the result and keeps a
   * move only when it scores strictly more than the best so far (the first
   * being compared with minus infinity).
   */
  method PickBest(b: Board, ms: seq<Move>) returns (choice: Option<Move>)
    requires OnBoard(ms)
    ensures choice.None? <==> ms == []
    ensures choice.Some? ==> exists k :: IsFirstBest(b, ms, k) && choice.value == ms[k]
  {
    choice := None;
    var bestScore := 0;
    ghost var bestIndex := 0;
    for i := 0 to |ms|
      invariant choice.None? <==> i == 0
      invariant i > 0 ==> FirstBestAmong(b, ms, i, bestIndex) && choice == Some(ms[bestIndex])
                          && bestScore == ScoreAfter(b, ms[bestIndex])
    {
      var move := ms[i];
      var score := SimulateAndEvaluate(b, move);
      if i > 0 {
        FirstBestStep(b, ms, i, bestIndex);
      }
      if choice.None? || score > bestScore {
        bestScore := score;
        choice := Some(move);
        bestIndex := i;
      }
    }
    if choice.Some? {
      assert IsFirstBest(b, ms, bestIndex);
    }
  }

  /**
   * The tier's choice: none when there is no move; otherwise easy takes
   * any move, medium any capture when there is one (any move otherwise),
   * hard the first move with the best simulated score.
   */
  method ChooseMove(b: Board, ms: seq<Move>, tier: Tier) returns (choice: Option<Move>)
    requires OnBoard(ms)
    ensures choice.None? <==> ms == []
    ensures choice.Some? ==> Admissible(b, ms, tier, choice.value)
  {
    if |ms| == 0 {
      return None;
    }
    match tier
    case Easy =>
      var m := PickAny(ms);
      choice := Some(m);
    case Medium =>
      var captures := Captures(b, ms);
      var m;
      if |captures| > 0 {
        m := PickAny(captures);
      } else {
        m := PickAny(ms);
      }
      choice := Some(m);
    case Hard =>
      choice := PickBest(b, ms);
  }

  /** The collected list is on the board and its moves start on black pieces. */
  lemma CollectedMovesOnBoard(b: Board)
    requires KingPresentIfAnyPiece(b, Black)
    ensures OnBoard(AllMoves(b, Black))
    ensures forall m :: m in AllMoves(b, Black) ==> InBounds(m.from) && IsOwn(b, m.from, Black)
  {
    var ms := AllMoves(b, Black);
    forall i | 0 <= i < |ms|
      ensures InBounds(ms[i].from) && InBounds(ms[i].to)
    {
      assert ms[i] in ms;
    }
  }
}
