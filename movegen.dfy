/**
 * Pseudo-legal move generation: the destinations a piece may reach by
 * its movement geometry alone, in the order the generator emits them,
 * without regard to the mover's own king.
 */
module MoveGen {
  import opened Chessboard

  /** A row/column displacement. */
  datatype Delta = Delta(dr: int, dc: int)

  function Shift(p: Pos, d: Delta): Pos {
    Pos(p.row + d.dr, p.col + d.dc)
  }

  /** k times a unit component s (s is -1, 0 or 1). */
  function Times(k: int, s: int): int {
    if s > 0 then k else if s < 0 then -k else 0
  }

  /** The square k steps from q along the unit direction d. */
  function Along(q: Pos, d: Delta, k: int): Pos {
    Pos(q.row + Times(k, d.dr), q.col + Times(k, d.dc))
  }

  const RookDirs: seq<Delta> := [Delta(1, 0), Delta(0, 1), Delta(-1, 0), Delta(0, -1)]
  const BishopDirs: seq<Delta> := [Delta(1, 1), Delta(1, -1), Delta(-1, 1), Delta(-1, -1)]
  const QueenDirs: seq<Delta> :=
    [Delta(1, 0), Delta(0, 1), Delta(-1, 0), Delta(0, -1),
     Delta(1, 1), Delta(1, -1), Delta(-1, 1), Delta(-1, -1)]
  const KnightJumps: seq<Delta> :=
    [Delta(2, 1), Delta(1, 2), Delta(-1, 2), Delta(-2, 1),
     Delta(-2, -1), Delta(-1, -2), Delta(1, -2), Delta(2, -1)]

  /** A unit step in one of the eight compass directions. */
  predicate IsDirection(d: Delta) {
    -1 <= d.dr <= 1 && -1 <= d.dc <= 1 && d != Delta(0, 0)
  }

  predicate AllDirections(ds: seq<Delta>) {
    forall i :: 0 <= i < |ds| ==> IsDirection(ds[i])
  }

  // ---------------------------------------------------------------------
  // Pawns
  // ---------------------------------------------------------------------

  /** The row a pawn advances by: up the board for white, down for black. */
  function Forward(c: Color): int {
    if c == White then -1 else 1
  }

  function PawnStartRow(c: Color): int {
    if c == White then 6 else 1
  }

  /** A capture onto column col of the row ahead, when an enemy piece stands there. */
  function PawnCapture(b: Board, p: Pos, c: Color, col: int): seq<Pos> {
    var q := Pos(p.row + Forward(c), col);
    if InBounds(q) && IsEnemy(b, q, c) then [q] else []
  }

  /** The single step, followed by the double step from the start row. */
  function PawnPushes(b: Board, p: Pos, c: Color): seq<Pos>
    requires InBounds(p)
  {
    var dir := Forward(c);
    var ahead := Pos(p.row + dir, p.col);
    if InBounds(ahead) && At(b, ahead) == None then
      [ahead] +
      (if p.row == PawnStartRow(c) && At(b, Pos(p.row + 2 * dir, p.col)) == None
       then [Pos(p.row + 2 * dir, p.col)] else [])
    else []
  }

  /**
   * The single step, the double step from the start row, then the two
   * diagonal captures, left column first.
   */
  function PawnMoves(b: Board, p: Pos, c: Color): (ms: seq<Pos>)
    requires InBounds(p)
    ensures |ms| <= 4
  {
    PawnPushes(b, p, c) + PawnCapture(b, p, c, p.col - 1) + PawnCapture(b, p, c, p.col + 1)
  }

  /**
   * A pawn reaches exactly the square ahead when it is empty, the square
   * two ahead from the start row when both are empty, and a diagonal
   * square ahead that holds an enemy piece.
   */
  lemma PawnMovesGeometry(b: Board, p: Pos, c: Color)
    requires InBounds(p)
    ensures forall m :: m in PawnMoves(b, p, c) <==>
      InBounds(m) &&
      ( (m == Pos(p.row + Forward(c), p.col) && At(b, m) == None)
      || (p.row == PawnStartRow(c) && m == Pos(p.row + 2 * Forward(c), p.col)
          && At(b, Pos(p.row + Forward(c), p.col)) == None && At(b, m) == None)
      || (m.row == p.row + Forward(c) && (m.col == p.col - 1 || m.col == p.col + 1)
          && IsEnemy(b, m, c)) )
  {
  }

  // ---------------------------------------------------------------------
  // Knights and kings: fixed offsets
  // ---------------------------------------------------------------------

  /** The target of one offset, kept when on the board and not held by the mover's side. */
  function StepTo(b: Board, p: Pos, c: Color, d: Delta): seq<Pos> {
    var q := Shift(p, d);
    if InBounds(q) && !IsOwn(b, q, c) then [q] else []
  }

  /** The kept targets of the offsets ds, in the order of ds. */
  function StepMoves(b: Board, p: Pos, c: Color, ds: seq<Delta>): (ms: seq<Pos>)
    ensures forall m :: m in ms <==>
      exists i :: 0 <= i < |ds| && m == Shift(p, ds[i]) && InBounds(m) && !IsOwn(b, m, c)
  {
    if ds == [] then []
    else
      var last := ds[|ds| - 1];
      var ms := StepMoves(b, p, c, ds[..|ds| - 1]) + StepTo(b, p, c, last);
      assert forall i :: 0 <= i < |ds| - 1 ==> ds[..|ds| - 1][i] == ds[i];
      ms
  }

  function Abs(x: int): nat {
    if x < 0 then -x else x
  }

  /** An L-shaped jump: two squares one way and one square the other. */
  predicate KnightJump(p: Pos, m: Pos) {
    var dr := Abs(m.row - p.row);
    var dc := Abs(m.col - p.col);
    (dr == 2 && dc == 1) || (dr == 1 && dc == 2)
  }

  /** One step to any of the eight neighbouring squares. */
  predicate KingStep(p: Pos, m: Pos) {
    -1 <= m.row - p.row <= 1 && -1 <= m.col - p.col <= 1 && m != p
  }

  lemma KnightMovesGeometry(b: Board, p: Pos, c: Color, m: Pos)
    ensures m in StepMoves(b, p, c, KnightJumps) <==>
              InBounds(m) && !IsOwn(b, m, c) && KnightJump(p, m)
  {
    forall i | 0 <= i < |KnightJumps|
      ensures KnightJump(p, Shift(p, KnightJumps[i]))
    {
    }
    if KnightJump(p, m) {
      var dr, dc := m.row - p.row, m.col - p.col;
      var i := if dr == 2 && dc == 1 then 0 else if dr == 1 && dc == 2 then 1
          else if dr == -1 && dc == 2 then 2 else if dr == -2 && dc == 1 then 3
          else if dr == -2 && dc == -1 then 4 else if dr == -1 && dc == -2 then 5
          else if dr == 1 && dc == -2 then 6 else 7;
      assert m == Shift(p, KnightJumps[i]);
    }
  }

  lemma KingMovesGeometry(b: Board, p: Pos, c: Color, m: Pos)
    ensures m in StepMoves(b, p, c, QueenDirs) <==>
              InBounds(m) && !IsOwn(b, m, c) && KingStep(p, m)
  {
    forall i | 0 <= i < |QueenDirs|
      ensures KingStep(p, Shift(p, QueenDirs[i]))
    {
    }
    if KingStep(p, m) {
      var dr, dc := m.row - p.row, m.col - p.col;
      var i := if dr == 1 && dc == 0 then 0 else if dr == 0 && dc == 1 then 1
          else if dr == -1 && dc == 0 then 2 else if dr == 0 && dc == -1 then 3
          else if dr == 1 && dc == 1 then 4 else if dr == 1 && dc == -1 then 5
          else if dr == -1 && dc == 1 then 6 else 7;
      assert m == Shift(p, QueenDirs[i]);
    }
  }

  // ---------------------------------------------------------------------
  // Sliding pieces
  // ---------------------------------------------------------------------

  /** Steps left before a walk from q along d leaves the board. */
  function RayMeasure(q: Pos, d: Delta): nat {
    if !InBounds(q) then 0
    else
      (if d.dr > 0 then 8 - q.row else if d.dr < 0 then q.row + 1 else 0) +
      (if d.dc > 0 then 8 - q.col else if d.dc < 0 then q.col + 1 else 0)
  }

  lemma MeasureDecreases(q: Pos, d: Delta)
    requires IsDirection(d) && InBounds(q)
    ensures RayMeasure(Shift(q, d), d) < RayMeasure(q, d)
  {
  }

  lemma AlongShift(q: Pos, d: Delta, k: int)
    requires IsDirection(d)
    ensures Along(Shift(q, d), d, k) == Along(q, d, k + 1)
  {
  }

  /**
   * The walk from q along d: every empty square, then the first occupied
   * square when it holds an enemy piece, stopping at the edge.
   */
  function Ray(b: Board, q: Pos, d: Delta, c: Color): (ms: seq<Pos>)
    requires IsDirection(d)
    ensures forall m :: m in ms ==> InBounds(m) && !IsOwn(b, m, c)
    decreases RayMeasure(q, d)
  {
    if !InBounds(q) then []
    else if At(b, q) == None then [q] + Ray(b, Shift(q, d), d, c)
    else if At(b, q).value.color != c then [q]
    else []
  }

  /** The number of consecutive empty squares from q along d. */
  function EmptyRun(b: Board, q: Pos, d: Delta): (n: nat)
    requires IsDirection(d)
    decreases RayMeasure(q, d)
  {
    if InBounds(q) && At(b, q) == None then 1 + EmptyRun(b, Shift(q, d), d) else 0
  }

  /**
   * EmptyRun counts a maximal run: the first n squares along d are on the
   * board and empty, and the square after them is off the board or occupied.
   */
  lemma {:induction false} EmptyRunIsMaximal(b: Board, q: Pos, d: Delta)
    requires IsDirection(d)
    ensures forall k :: 0 <= k < EmptyRun(b, q, d) ==>
              InBounds(Along(q, d, k)) && At(b, Along(q, d, k)) == None
    ensures var n := EmptyRun(b, q, d);
            !(InBounds(Along(q, d, n)) && At(b, Along(q, d, n)) == None)
    decreases RayMeasure(q, d)
  {
    assert Along(q, d, 0) == q;
    if InBounds(q) && At(b, q) == None {
      var q' := Shift(q, d);
      MeasureDecreases(q, d);
      EmptyRunIsMaximal(b, q', d);
      var n' := EmptyRun(b, q', d);
      AlongShift(q, d, n');
      forall k | 0 < k <= n'
        ensures Along(q, d, k) == Along(q', d, k - 1)
      {
        AlongShift(q, d, k - 1);
      }
    }
  }

  /**
   * A ray is exactly the maximal run of empty squares, followed by the
   * first occupied square if and only if that square is on the board and
   * holds an enemy piece; its k-th square is k steps from the start.
   */
  lemma {:induction false} RayIsRunThenCapture(b: Board, q: Pos, d: Delta, c: Color)
    requires IsDirection(d)
    ensures var n := EmptyRun(b, q, d);
            var stop := Along(q, d, n);
            |Ray(b, q, d, c)| == n + (if InBounds(stop) && IsEnemy(b, stop, c) then 1 else 0)
    ensures forall k :: 0 <= k < |Ray(b, q, d, c)| ==> Ray(b, q, d, c)[k] == Along(q, d, k)
    decreases RayMeasure(q, d)
  {
    var r := Ray(b, q, d, c);
    assert Along(q, d, 0) == q;
    if InBounds(q) && At(b, q) == None {
      var q' := Shift(q, d);
      MeasureDecreases(q, d);
      RayIsRunThenCapture(b, q', d, c);
      var n' := EmptyRun(b, q', d);
      AlongShift(q, d, n');
      assert r == [q] + Ray(b, q', d, c);
      forall k | 0 < k < |r|
        ensures r[k] == Along(q, d, k)
      {
        assert r[k] == Ray(b, q', d, c)[k - 1];
        AlongShift(q, d, k - 1);
      }
    }
  }

  /** The rays from p along each direction of ds, concatenated in the order of ds. */
  function SlideMoves(b: Board, p: Pos, c: Color, ds: seq<Delta>): (ms: seq<Pos>)
    requires AllDirections(ds)
    ensures forall m :: m in ms ==> InBounds(m) && !IsOwn(b, m, c)
  {
    if ds == [] then []
    else
      var last := ds[|ds| - 1];
      SlideMoves(b, p, c, ds[..|ds| - 1]) + Ray(b, Shift(p, last), last, c)
  }

  function SlideDirs(k: Kind): seq<Delta>
    requires k == Rook || k == Bishop || k == Queen
  {
    if k == Rook then RookDirs else if k == Bishop then BishopDirs else QueenDirs
  }

  // ---------------------------------------------------------------------
  // The generator
  // ---------------------------------------------------------------------

  /**
   * The pseudo-legal destinations of the piece on p for side turn: none
   * when p is empty or holds the other side's piece; otherwise every
   * destination is on the board, differs from p and is not held by the
   * mover's side.
   */
  function PseudoMoves(b: Board, p: Pos, turn: Color): (ms: seq<Pos>)
    requires InBounds(p)
    ensures !IsOwn(b, p, turn) ==> ms == []
    ensures forall m :: m in ms ==> InBounds(m) && m != p && !IsOwn(b, m, turn)
  {
    match At(b, p)
    case None => []
    case Some(piece) =>
      if piece.color != turn then []
      else match piece.kind
        case Pawn => PawnMoves(b, p, turn)
        case Knight => StepMoves(b, p, turn, KnightJumps)
        case King => StepMoves(b, p, turn, QueenDirs)
        case _ => SlideMoves(b, p, turn, SlideDirs(piece.kind))
  }

  // ---------------------------------------------------------------------
  // What the generator reads of the board
  // ---------------------------------------------------------------------

  /** The same squares are occupied on both boards, by pieces of the same colours. */
  predicate SameOccupancy(b1: Board, b2: Board) {
    forall i :: 0 <= i < 64 ==>
      b1[i].None? == b2[i].None? && (b1[i].Some? && b2[i].Some? ==> b1[i].value.color == b2[i].value.color)
  }

  lemma OccupancyAt(b1: Board, b2: Board, q: Pos, c: Color)
    requires SameOccupancy(b1, b2) && InBounds(q)
    ensures (At(b1, q) == None) == (At(b2, q) == None)
    ensures IsOwn(b1, q, c) == IsOwn(b2, q, c) && IsEnemy(b1, q, c) == IsEnemy(b2, q, c)
  {
    assert b1[Index(q)].None? == b2[Index(q)].None?;
  }

  lemma {:induction false} StepMovesReadOccupancy(b1: Board, b2: Board, p: Pos, c: Color, ds: seq<Delta>)
    requires SameOccupancy(b1, b2)
    ensures StepMoves(b1, p, c, ds) == StepMoves(b2, p, c, ds)
  {
    if ds != [] {
      StepMovesReadOccupancy(b1, b2, p, c, ds[..|ds| - 1]);
      var q := Shift(p, ds[|ds| - 1]);
      if InBounds(q) {
        OccupancyAt(b1, b2, q, c);
      }
    }
  }

  lemma {:induction false} RayReadsOccupancy(b1: Board, b2: Board, q: Pos, d: Delta, c: Color)
    requires SameOccupancy(b1, b2) && IsDirection(d)
    ensures Ray(b1, q, d, c) == Ray(b2, q, d, c)
    decreases RayMeasure(q, d)
  {
    if InBounds(q) {
      OccupancyAt(b1, b2, q, c);
      if At(b1, q) == None {
        MeasureDecreases(q, d);
        RayReadsOccupancy(b1, b2, Shift(q, d), d, c);
      }
    }
  }

  lemma {:induction false} SlideMovesReadOccupancy(b1: Board, b2: Board, p: Pos, c: Color, ds: seq<Delta>)
    requires SameOccupancy(b1, b2) && AllDirections(ds)
    ensures SlideMoves(b1, p, c, ds) == SlideMoves(b2, p, c, ds)
  {
    if ds != [] {
      var last := ds[|ds| - 1];
      SlideMovesReadOccupancy(b1, b2, p, c, ds[..|ds| - 1]);
      RayReadsOccupancy(b1, b2, Shift(p, last), last, c);
    }
  }

  lemma PawnMovesReadOccupancy(b1: Board, b2: Board, p: Pos, c: Color)
    requires SameOccupancy(b1, b2) && InBounds(p)
    ensures PawnMoves(b1, p, c) == PawnMoves(b2, p, c)
  {
    var dir := Forward(c);
    forall col | InBounds(Pos(p.row + dir, col))
      ensures PawnCapture(b1, p, c, col) == PawnCapture(b2, p, c, col)
    {
      OccupancyAt(b1, b2, Pos(p.row + dir, col), c);
    }
    if InBounds(Pos(p.row + dir, p.col)) {
      OccupancyAt(b1, b2, Pos(p.row + dir, p.col), c);
      if p.row == PawnStartRow(c) {
        OccupancyAt(b1, b2, Pos(p.row + 2 * dir, p.col), c);
      }
    }
  }

  /**
   * The generator reads the board only for which squares are occupied and
   * by which side, besides the piece it moves: two boards that agree on
   * that, and on the piece on p, give p the same destinations.
   */
  lemma PseudoMovesReadOccupancy(b1: Board, b2: Board, p: Pos, turn: Color)
    requires SameOccupancy(b1, b2) && InBounds(p) && At(b1, p) == At(b2, p)
    ensures PseudoMoves(b1, p, turn) == PseudoMoves(b2, p, turn)
  {
    if IsOwn(b1, p, turn) {
      match At(b1, p).value.kind
      case Pawn => PawnMovesReadOccupancy(b1, b2, p, turn);
      case Knight => StepMovesReadOccupancy(b1, b2, p, turn, KnightJumps);
      case King => StepMovesReadOccupancy(b1, b2, p, turn, QueenDirs);
      case _ => SlideMovesReadOccupancy(b1, b2, p, turn, SlideDirs(At(b1, p).value.kind));
    }
  }

  // ---------------------------------------------------------------------
  // The generator's loops
  // ---------------------------------------------------------------------

  /** The single step onto an empty square, then the double step from the start row. */
  method ScanPushes(b: Board, p: Pos, c: Color) returns (moves: seq<Pos>)
    requires InBounds(p)
    ensures moves == PawnPushes(b, p, c)
  {
    moves := [];
    var dir := if c == White then -1 else 1;
    var startRow := if c == White then 6 else 1;
    if InBounds(Pos(p.row + dir, p.col)) && At(b, Pos(p.row + dir, p.col)) == None {
      moves := moves + [Pos(p.row + dir, p.col)];
      if p.row == startRow && At(b, Pos(p.row + 2 * dir, p.col)) == None {
        moves := moves + [Pos(p.row + 2 * dir, p.col)];
      }
    }
  }

  /** The pawn's pushes, then its two diagonal captures scanned left to right. */
  method ScanPawn(b: Board, p: Pos, c: Color) returns (moves: seq<Pos>)
    requires InBounds(p)
    ensures moves == PawnMoves(b, p, c)
  {
    moves := ScanPushes(b, p, c);
    ghost var push := moves;
    var dir := if c == White then -1 else 1;
    var cols := [p.col - 1, p.col + 1];
    for i := 0 to 2
      invariant moves == push + (if i >= 1 then PawnCapture(b, p, c, cols[0]) else [])
                              + (if i >= 2 then PawnCapture(b, p, c, cols[1]) else [])
    {
      var q := Pos(p.row + dir, cols[i]);
      if InBounds(q) {
        var target := At(b, q);
        if target.Some? && target.value.color != c {
          moves := moves + [q];
        }
      }
    }
  }

  /** The kept targets of a fixed offset table, scanned in table order. */
  method ScanSteps(b: Board, p: Pos, c: Color, ds: seq<Delta>) returns (moves: seq<Pos>)
    ensures moves == StepMoves(b, p, c, ds)
  {
    moves := [];
    for i := 0 to |ds|
      invariant moves == StepMoves(b, p, c, ds[..i])
    {
      assert ds[..i + 1][..i] == ds[..i];
      var q := Pos(p.row + ds[i].dr, p.col + ds[i].dc);
      if InBounds(q) {
        var target := At(b, q);
        if target.None? || target.value.color != c {
          moves := moves + [q];
        }
      }
    }
    assert ds[..|ds|] == ds;
  }

  /** Walks from p along d while on the board, stopping at the first occupied square. */
  method WalkRay(b: Board, p: Pos, d: Delta, c: Color) returns (ray: seq<Pos>)
    requires IsDirection(d)
    ensures ray == Ray(b, Shift(p, d), d, c)
  {
    ray := [];
    var nr, nc := p.row + d.dr, p.col + d.dc;
    while InBounds(Pos(nr, nc))
      invariant ray + Ray(b, Pos(nr, nc), d, c) == Ray(b, Shift(p, d), d, c)
      decreases RayMeasure(Pos(nr, nc), d)
    {
      var target := At(b, Pos(nr, nc));
      if target.None? {
        ray := ray + [Pos(nr, nc)];
      } else {
        if target.value.color != c {
          ray := ray + [Pos(nr, nc)];
        }
        break;
      }
      MeasureDecreases(Pos(nr, nc), d);
      assert ray + Ray(b, Shift(Pos(nr, nc), d), d, c) == Ray(b, Shift(p, d), d, c);
      nr, nc := nr + d.dr, nc + d.dc;
    }
  }

  /** The rays of every direction of ds, walked in the order of ds. */
  method ScanSlides(b: Board, p: Pos, c: Color, ds: seq<Delta>) returns (moves: seq<Pos>)
    requires AllDirections(ds)
    ensures moves == SlideMoves(b, p, c, ds)
  {
    moves := [];
    for i := 0 to |ds|
      invariant moves == SlideMoves(b, p, c, ds[..i])
    {
      assert ds[..i + 1][..i] == ds[..i];
      var ray := WalkRay(b, p, ds[i], c);
      moves := moves + ray;
    }
    assert ds[..|ds|] == ds;
  }
}
