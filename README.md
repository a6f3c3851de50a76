# A verified model of a browser chess engine's rules core

The modelled program is a single-page chess game. A human plays white and a
computer opponent plays black. This project models its rules engine:

- the start position;
- pseudo-legal move generation for every piece kind;
- the legality filter, which simulates a move on a copy of the board and
  rejects it when it leaves the mover's king attacked;
- check detection;
- committing a move, with automatic promotion of a pawn to a queen on row 0
  or 7;
- game-end classification (checkmate or stalemate);
- the material evaluation;
- the opponent's move choice at its three tiers: easy, medium and hard.

The board is kept as 64 cells in row-major order. Row 0 is black's back rank
and row 7 is white's. Cell `row * 8 + col` holds the square `(row, col)`. Each
cell is empty or holds a piece, which is a kind and a colour.

Modules, in dependency order:

- `Chessboard` (board.dfy): pieces, squares, the board, the start position,
  the legality filter's simulation (`Simulate`) and the committed move
  (`ApplyMove`).
- `MoveGen` (movegen.dfy): pawn, knight, king and sliding-piece
  destinations. Each is a function describing the result, plus the loop
  (`ScanPawn`, `ScanSteps`, `WalkRay`, `ScanSlides`) that builds it.
- `Check` (check.dfy): the king's square as the row-major scan finds it, and
  the attack test.
- `Legality` (legality.dfy): the check filter and the generator entry point
  `GetLegalMoves`, with validation switched on or off.
- `Status` (status.dfy): the full move list of a side in scan order, and the
  checkmate / stalemate classification.
- `Evaluation` (evaluation.dfy): the material score. Black counts positively,
  white negatively.
- `Opponent` (opponent.dfy): collecting black's moves and the three tiers'
  choice.
- `ChessGame` (game.dfy): the live game, a class with the board as an array
  of 64 cells updated in place and the side to move.

The random picks of the easy and medium tiers are modelled as a
nondeterministic choice. What is proved is only that the pick lies in the
list it was drawn from.

## Model

| member | source | states |
|---|---|---|
| Chessboard.InitialBoard | script.js:13-34 | Row 0 and row 7 hold rook, knight, bishop, queen, king, bishop, knight, rook of black and of white; rows 1 and 6 hold black and white pawns; rows 2 to 5 are empty |
| Chessboard.InitialBoardHasKings | script.js:13-34 | The start position has a king of each colour |
| Chessboard.Simulate | script.js:233-238 | The copy has the origin emptied, the destination holding what the origin held, every other square unchanged; a king survives unless its own side stood on the destination |
| Chessboard.ApplyMove | script.js:122-127 | The committed board has the origin emptied, the destination holding the moved piece or a queen of its colour for a pawn reaching row 0 or 7, every other square unchanged |
| Chessboard.ApplyMoveIsSimulateUnlessPromotion | script.js:122-127 | For distinct squares, the committed move equals the legality filter's simulation exactly when it is not a promotion |
| MoveGen.PawnMoves | script.js:158-176 | A pawn has at most four destinations: two pushes and two captures |
| MoveGen.PawnMovesGeometry | script.js:158-176 | A pawn reaches exactly: the square ahead when empty; two ahead from its start row when both squares are empty; a diagonal square ahead holding an enemy piece |
| MoveGen.ScanPushes | script.js:162-167 | The push step produces the single step onto an empty square, then the double step from the start row when that square is empty too |
| MoveGen.ScanPawn | script.js:158-176 | The pawn loop pushes exactly the pawn's destinations, in order: single step, double step, left capture, right capture |
| MoveGen.StepMoves | script.js:178-187 | A fixed-offset piece reaches exactly the on-board offset targets not held by its own side |
| MoveGen.ScanSteps | script.js:178-187 | The offset loop builds exactly the offset-table destinations, in table order |
| MoveGen.KnightMovesGeometry | script.js:178-187 | With the knight's offset table, a square is reached exactly when it is on the board, is not held by the mover's side, and is an L-shaped jump away |
| MoveGen.KingMovesGeometry | script.js:209-218 | With the eight queen directions as offsets, a square is reached exactly when it is on the board, is not held by the mover's side, and neighbours the king's square |
| MoveGen.Ray | script.js:192-206 | Every square of a slide is on the board and not held by the mover's side |
| MoveGen.EmptyRunIsMaximal | script.js:194-203 | The empty run along a direction is maximal: its squares are on the board and empty, and the next square is off the board or occupied |
| MoveGen.RayIsRunThenCapture | script.js:191-207 | A slide is the maximal run of empty squares, plus the first occupied square exactly when it is on the board and holds an enemy; its k-th square is k steps out |
| MoveGen.WalkRay | script.js:192-206 | The while loop walking one direction produces exactly that direction's slide |
| MoveGen.SlideMoves | script.js:189-207 | Every destination of a rook, bishop or queen is on the board and not held by its side |
| MoveGen.ScanSlides | script.js:189-207 | The direction loop concatenates the slides of each direction in table order |
| MoveGen.PseudoMoves | script.js:144-219 | Nothing for an empty square or a piece of the side not moving; otherwise every destination is on the board, differs from the origin and is not held by the mover's side |
| MoveGen.PseudoMovesReadOccupancy | script.js:144-219 | The generator reads the board only for which squares are occupied and by which side, besides the moving piece: two boards agreeing on that give the same destinations |
| Check.LastKingBelow | script.js:241-248 | The last cell below n holding the king of that colour, with no such king after it; none when there is none |
| Check.KingPos | script.js:241-248 | The king square the scan keeps holds that colour's king, and no square later in row-major order holds one |
| Check.IsInCheck | script.js:240-259 | Defined as the scan over rows and columns for a piece of the other side whose pseudo-legal destinations, generated for its side, include the king square `KingPos` keeps; its contract adds that a side can be in check only while a piece of the other side is on the board |
| Check.IsInCheckReadsOccupancy | script.js:240-259 | Two boards with the same occupancy, the same squares for the side's king and the same enemy pieces agree on whether the side is in check |
| Legality.WouldBeInCheck | script.js:228-231 | A relocation is rejected only while some enemy piece other than the one it captures is on the board |
| Legality.SafeMoves | script.js:221-223 | The filtered list keeps the generator's order, and a destination is kept exactly when the simulated move leaves the mover not in check |
| Legality.LegalMoves | script.js:144-223 | Nothing for an empty square or a piece of the side not moving; legal destinations are on the board, differ from the origin and are not held by the mover's side |
| Legality.LegalMovesFilterPseudoMoves | script.js:221-231 | The legal moves are an order-preserving sub-list of the pseudo-legal ones, and a pseudo-legal move is legal exactly when its simulation leaves the mover not in check |
| Legality.CommitAgreesWithSimulationOnCheck | script.js:122-127 | The committed board keeps the mover's king, and the mover is in check on it exactly when in check on the legality filter's copy, promotions included |
| Legality.LegalMoveKeepsKingSafe | script.js:221-231 | Committing a legal move, a promotion included, leaves the mover's king on the board and not in check |
| Legality.GetLegalMoves | script.js:144-226 | The generator returns the legal moves when validation is on, and the pseudo-legal ones when it is off |
| Status.PairWith | script.js:312-317 | Pairing each destination with its origin keeps the count, and the i-th pair is the origin with the i-th destination, so the order of the destinations is kept |
| Status.MovesBelowListsEachLegalMove | script.js:308-320 | After the first n squares of the scan, a move is listed exactly when its origin is among them and its destination is legal |
| Status.MovesBelowInScanOrder | script.js:308-320 | After the first n squares of the scan, every listed origin is among them and the origins never go back in row-major order |
| Status.AllMoves | script.js:308-320 | A move is listed exactly when its origin holds a piece of the side and its destination is legal for that piece; the list is in row-major order of origins |
| Status.ScanFindsMoveIffListed | script.js:262-271 | The scan over rows and columns finds a piece of the side with a legal move exactly when the side's collected move list is not empty |
| Status.HasAnyMove | script.js:262-271 | A side has a piece with a legal move exactly when its collected move list is not empty |
| Status.GameStatusOf | script.js:261-279 | Checkmate exactly when there is no legal move and the side is in check, with the other side winning; stalemate exactly when there is no legal move and no check; otherwise the game goes on |
| Evaluation.EvaluateBoard | script.js:281-302 | The nested loop's score is black's material less white's (pawn 1, knight 3, bishop 3, rook 5, queen 9, king 100) |
| Evaluation.Material | script.js:290-299 | Black's material less white's equals the cell-by-cell sum that adds a black piece's value and subtracts a white one's |
| Evaluation.InitialMaterialBalanced | script.js:13-34 | In the start position each side has 139 points of material and the score is 0 |
| Evaluation.MaterialAfterSimulate | script.js:336-337 | Simulating a move between distinct squares changes the score by exactly the value of the captured piece |
| Evaluation.MaterialAfterMove | script.js:122-127 | A committed move changes the score by the captured piece; a promotion adds the 8-point gain of a queen over a pawn for the promoting side |
| Opponent.Captures | script.js:329 | The captures are exactly the listed moves whose destination is occupied |
| Opponent.FirstBestStep | script.js:335-342 | One comparison of the greedy search keeps the first best move so far: a strictly higher score takes over, an equal one does not |
| Opponent.FirstBestIsUnique | script.js:334-342 | The first move with the best score is unique |
| Opponent.AppendMovesFrom | script.js:312-317 | The push loop appends each destination paired with its origin, in order |
| Opponent.CollectFrom | script.js:309-318 | One square of the scan contributes its legal moves as from/to pairs when it holds a black piece, and nothing otherwise |
| Opponent.CollectMoves | script.js:306-320 | The nested scan lists exactly black's legal moves, in row-major order of origin |
| Opponent.CollectedMovesOnBoard | script.js:306-320 | Every collected move starts and ends on the board, and starts on a black piece |
| Opponent.PickAny | script.js:327 | The random pick is a member of the list |
| Opponent.SimulateAndEvaluate | script.js:336-337 | The score of a candidate is the material of its simulated board |
| Opponent.HardTakesOnlyGainingCapture | script.js:333-343 | Offered one capture of a white piece among moves onto empty squares, the greedy search picks the capture and nothing else is first best |
| Opponent.PickBest | script.js:333-343 | No move for an empty list; otherwise the move kept is the first with the highest simulated score |
| Opponent.ChooseMove | script.js:322-343 | No move exactly when the list is empty; otherwise easy picks any move, medium any capture when there is one and any move otherwise, hard the first best-scoring move |
| ChessGame.Game.constructor | script.js:8-9 | A new game starts from the start position with white to move |
| ChessGame.Game.MovePiece | script.js:110-133 | The board becomes the committed-move board and the turn passes to the other side |
| ChessGame.Game.AiMove | script.js:304-350 | When black has no legal move nothing changes; otherwise a move the tier admits, drawn from the collected list, is committed and the turn passes |

## Left out

- Rendering, clicks, square selection, the highlight list, the reset button and the status and turn texts: these are presentation. Their outcomes are the `GameStatus` value and the `turn` field.
- Sounds and the destination-square animation: they do not affect the game state.
- The delay before the computer replies, and the click handler's test that the game is not won before it replies: these are scheduling and presentation.
- Reading the tier from the page: the tier is a parameter. An unknown tier, for which the source picks no move and changes nothing, is not representable because `Tier` has exactly three values.
- `Math.random`: the easy and medium picks are a nondeterministic choice from the list. Uniformity is not modelled.
- Object identity: the source fills each pawn row with one shared piece object. Pieces here are values, and the source never mutates a piece, so this has no observable effect.
- Legality.WouldBeInCheck: the source simulates on the global live board, whatever board it was handed. The model simulates on the board it is given. Every validated call in the source passes the live board, so the two agree.
- Check.IsInCheck: it requires a king of the tested colour. The source fails at script.js:254 when the king is missing and an enemy piece has a move. `KingPresentIfAnyPiece` carries this requirement up to `AllMoves`, `CollectMoves` and `ChessGame.Game.AiMove`.
- ChessGame.Game.MovePiece: it requires a piece on the origin. The source reads the piece's fields and would fail on an empty origin; every call passes a listed move.
- Opponent.PickBest: the hard tier scores each move with the legality filter's simulation, so it sees no promotion. This follows the code, not the notion of applying the move and evaluating the position.
- Concrete positions are not evaluated: the status of the start position, a check along an open file, and a corner checkmate are not proved. Each would need the whole generator and check detection run on a 64-cell board, which is beyond what the solver does in reasonable time; the model proves the general properties instead.
- Castling, en passant, under-promotion and draw rules: the source does not implement them either.
