/**
 * The material score the opponent maximises: black's pieces count
 * positively, white's negatively.
 */
module Evaluation {
  import opened Chessboard

  function Value(k: Kind): nat {
    match k
    case Pawn => 1
    case Knight => 3
    case Bishop => 3
    case Rook => 5
    case Queen => 9
    case King => 100
  }

  /** The value of the piece in a cell when it belongs to side c, else 0. */
  function CellValue(cell: Cell, c: Color): nat {
    if cell.Some? && cell.value.color == c then Value(cell.value.kind) else 0
  }

  /** The total value of side c's pieces among cells. */
  function SideMaterial(cells: seq<Cell>, c: Color): nat {
    if cells == [] then 0
    else SideMaterial(cells[..|cells| - 1], c) + CellValue(cells[|cells| - 1], c)
  }

  /** What the evaluation loop adds for one cell: a black piece's value, or minus a white one's. */
  function Signed(cell: Cell): int {
    match cell
    case None => 0
    case Some(piece) =>
      var v: int := Value(piece.kind);
      if piece.color == Black then v else -v
  }

  /** The score accumulated cell by cell. */
  function SignedTotal(cells: seq<Cell>): int {
    if cells == [] then 0
    else SignedTotal(cells[..|cells| - 1]) + Signed(cells[|cells| - 1])
  }

  lemma {:induction false} SideMaterialIsSignedTotal(cells: seq<Cell>)
    ensures SideMaterial(cells, Black) - SideMaterial(cells, White) == SignedTotal(cells)
  {
    if cells != [] {
      SideMaterialIsSignedTotal(cells[..|cells| - 1]);
    }
  }

  /**
   * Black's material less white's, which is the cell-by-cell sum of each
   * occupied cell's signed value.
   */
  function Material(b: Board): (score: int)
    ensures score == SignedTotal(b)
  {
    SideMaterialIsSignedTotal(b);
    SideMaterial(b, Black) - SideMaterial(b, White)
  }

  /** Sums the signed value of every occupied cell, row by row. */
  method EvaluateBoard(b: Board) returns (score: int)
    ensures score == SideMaterial(b, Black) - SideMaterial(b, White)
  {
    score := 0;
    for r := 0 to 8
      invariant score == SideMaterial(b[..r * 8], Black) - SideMaterial(b[..r * 8], White)
    {
      for c := 0 to 8
        invariant score == SideMaterial(b[..r * 8 + c], Black) - SideMaterial(b[..r * 8 + c], White)
      {
        var i := r * 8 + c;
        assert b[..i + 1][..i] == b[..i];
        var cell := b[i];
        if cell.Some? {
          var val: int := Value(cell.value.kind);
          score := score + (if cell.value.color == Black then val else -val);
        }
      }
    }
    assert b[..64] == b;
  }

  lemma {:induction false} SideMaterialAppend(s: seq<Cell>, t: seq<Cell>, c: Color)
    ensures SideMaterial(s + t, c) == SideMaterial(s, c) + SideMaterial(t, c)
    decreases |t|
  {
    if t == [] {
      assert s + t == s;
    } else {
      var t' := t[..|t| - 1];
      assert (s + t)[..|s + t| - 1] == s + t';
      SideMaterialAppend(s, t', c);
    }
  }

  lemma {:induction false} SideMaterialOfUniform(s: seq<Cell>, c: Color, x: Cell)
    requires forall i :: 0 <= i < |s| ==> s[i] == x
    ensures SideMaterial(s, c) == |s| * CellValue(x, c)
    decreases |s|
  {
    if s != [] {
      SideMaterialOfUniform(s[..|s| - 1], c, x);
    }
  }

  lemma SideMaterialStep(s: seq<Cell>, k: nat, c: Color)
    requires k < |s|
    ensures SideMaterial(s[..k + 1], c) == SideMaterial(s[..k], c) + CellValue(s[k], c)
  {
    assert s[..k + 1][..k] == s[..k];
  }

  lemma SideMaterialOfBackRow(owner: Color, c: Color)
    ensures SideMaterial(BackRow(owner), c) == if owner == c then 131 else 0
  {
    var s := BackRow(owner);
    assert s[..0] == [];
    for k := 0 to 8
      invariant SideMaterial(s[..k], c) ==
        if owner != c then 0 else [0, 5, 8, 11, 20, 120, 123, 126, 131][k]
    {
      SideMaterialStep(s, k, c);
    }
    assert s[..8] == s;
  }

  /** The start position is balanced: each side holds 139 points of material. */
  lemma InitialMaterialBalanced()
    ensures SideMaterial(InitialBoard(), Black) == 139 && SideMaterial(InitialBoard(), White) == 139
    ensures Material(InitialBoard()) == 0
  {
    var a, p, e, q, z := BackRow(Black), PawnRow(Black), EmptyRows(4), PawnRow(White), BackRow(White);
    forall c: Color
      ensures SideMaterial(InitialBoard(), c) == 139
    {
      SideMaterialOfBackRow(Black, c);
      SideMaterialOfBackRow(White, c);
      SideMaterialOfUniform(p, c, Some(Piece(Pawn, Black)));
      SideMaterialOfUniform(e, c, None);
      SideMaterialOfUniform(q, c, Some(Piece(Pawn, White)));
      SideMaterialAppend(a, p, c);
      SideMaterialAppend(a + p, e, c);
      SideMaterialAppend(a + p + e, q, c);
      SideMaterialAppend(a + p + e + q, z, c);
    }
  }

  lemma {:induction false} SideMaterialUpdate(s: seq<Cell>, i: nat, x: Cell, c: Color)
    requires i < |s|
    ensures SideMaterial(s[i := x], c) == SideMaterial(s, c) - CellValue(s[i], c) + CellValue(x, c)
    decreases |s|
  {
    var n := |s| - 1;
    assert s[i := x][..n] == if i == n then s[..n] else s[..n][i := x];
    if i < n {
      SideMaterialUpdate(s[..n], i, x, c);
    }
  }

  /**
   * Relocating a piece keeps its value on the board and removes what the
   * destination held: the score changes by exactly the captured piece,
   * which raises it when a white piece is taken.
   */
  lemma MaterialAfterSimulate(b: Board, from: Pos, to: Pos)
    requires InBounds(from) && InBounds(to) && from != to
    ensures Material(Simulate(b, from, to)) == Material(b) - Signed(At(b, to))
  {
    var mid := b[Index(to) := At(b, from)];
    forall c: Color
      ensures SideMaterial(Simulate(b, from, to), c) == SideMaterial(b, c) - CellValue(At(b, to), c)
    {
      SideMaterialUpdate(b, Index(to), At(b, from), c);
      SideMaterialUpdate(mid, Index(from), None, c);
    }
  }

  /**
   * A committed move removes what the destination held and replaces the
   * moving piece by what lands: the score changes by the captured piece
   * and, on a promotion, by the gain of a queen over a pawn.
   */
  lemma MaterialAfterMove(b: Board, from: Pos, to: Pos)
    requires InBounds(from) && InBounds(to) && from != to && At(b, from).Some?
    ensures Material(ApplyMove(b, from, to)) ==
              Material(b) - Signed(At(b, to)) - Signed(At(b, from)) + Signed(Some(Landed(At(b, from).value, to)))
    ensures Promotes(At(b, from).value, to) ==>
              Material(ApplyMove(b, from, to)) ==
                Material(b) - Signed(At(b, to)) + (if At(b, from).value.color == Black then 8 else -8)
  {
    var landed := Some(Landed(At(b, from).value, to));
    var mid := b[Index(to) := landed];
    forall c: Color
      ensures SideMaterial(ApplyMove(b, from, to), c) ==
                SideMaterial(b, c) - CellValue(At(b, to), c) - CellValue(At(b, from), c) + CellValue(landed, c)
    {
      SideMaterialUpdate(b, Index(to), landed, c);
      SideMaterialUpdate(mid, Index(from), None, c);
    }
  }
}
