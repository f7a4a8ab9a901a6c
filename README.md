# A verified model of a bitboard chess engine core

This project models the rules and search core of a small C chess engine (abhigyan7/chess) in Dafny, and proves what that code computes.

The core consists of:
- the 64-bit set helpers;
- the board, its starting position and the FEN placement parser;
- the move generator, with its king-safety filter and its check and checkmate tests;
- the square-name helpers;
- the static evaluator;
- the alpha-beta search with move ordering;
- the plain minimax search of the AI-versus-AI program.

The modules follow the source files:

| module | file | models |
|---|---|---|
| `BitUtils` | `bitutils.dfy` | `bitutils.h` |
| `Board` | `board.dfy` | `board.h` |
| `Rules` | `legal_moves.dfy` | `legal_moves.h` |
| `MovesGeneration` | `moves_generation.dfy` | `moves_generation.h` |
| `Evaluation` | `evaluation.dfy` | `evaluation.h` |
| `Search` | `ai.dfy` | `ai.h` |
| `AiVsAi` | `ai_vs_ai.dfy` | the engine part of `main-ai-vs-ai.c` |

How the source's data is represented:
- **Positions.** A position (`game_state`) is a value: 64 pieces plus the side to move.
- **Bitboards.** A `uint64_t` bitboard is a `seq<bool>` of length 64. Bit i stands for square i.
- **Scores.** Float scores are `real`.
- **Loops and in-place updates.** Code that loops or updates in place is modelled as methods with loop invariants:
  - `read_state` writes an array;
  - `swap` and `move` write an array;
  - `popcount`, the generators, `ensure_moves_are_legal`, `find_piece` and `is_check_mate` are loops;
  - the evaluators are 64-square loops;
  - the searches are loops;
  - the global counter `n_states_explored` is a field of `Search.Searcher`;
  - the global `eval_function` is a field of `AiVsAi.Engine`.
- **Specification functions.** Each method is proved equal to a specification function. The properties are proved about those functions.

The model reproduces the source as written, including these behaviours:
- **`pop_next_index`** returns the highest set bit, `63 - clz`.
- **Pawn direction** follows the side to move, not the pawn's colour.
- **`is_king_in_check`** never looks for the enemy king. A king may therefore stand next to the enemy king and even capture it. In the position after such a capture the side to move has no king. The search node for that position passes find_piece's -1 to is_king_in_check. It does so while filtering its moves (legal_moves.h:460-461), or, when it has no moves, while scoring the node (ai.h:83). The model's search precondition excludes such a node (Rules.KingCapturesKing shows one).
- **Missing rules.** There is no castling, en passant or promotion.
- **`Piece_Value`** has the layout of a different enum.
  - B_ROOK and B_KNIGHT are worth 0 and B_PAWN -900.
  - The starting position's material is -5600.
- **Rook and queen mobility** are counted with the bishop generator.
- **`str_to_boardindex`** does not always return -1 for an invalid square name, although its comment promises that. With a bad file letter and a good rank it returns `-1 + (8 - rank) * 8`, so "z1" gives 55. The model follows the code.
- **`is_check_mate`** answers 1 on stalemate as well.
- **The alpha-beta window** is not rescaled by the 0.98 decay.

The helpers that the shown files call but do not define are written from the piece enum:
- a piece below 6 is White's and 6..11 are Black's;
- `BLANK` belongs to no one;
- `make_move_2` is `make_move` on a move's origin and destination;
- `get_legal_moves_as_move_array` lists the legal moves of the side to move, origin by origin and destination by destination.

## Model

| member | source | states |
|---|---|---|
| BitUtils.SetNthBitTo | bitutils.h:8-12 | bit n of the result is set exactly when the value is 1, and every other bit keeps its value |
| BitUtils.SetThenGet | bitutils.h:8-19 | reading bit n after setting it to v (0 or 1) gives v |
| BitUtils.SetKeepsOtherBits | bitutils.h:8-19 | setting bit n leaves every other bit as it was |
| BitUtils.SetIdempotent | bitutils.h:8-12 | setting the same bit to the same value twice is the same as once |
| BitUtils.GetNthBit | bitutils.h:16-19 | the result is 0 or 1 |
| BitUtils.Or | legal_moves.h:137-149 | the bitwise or: bit i is set exactly when it is set in either operand |
| BitUtils.OrWithSetBit | legal_moves.h:367-368 | or-ing a word with a copy that has bit n set is setting bit n |
| BitUtils.Count | bitutils.h:22-31 | the number of set bits is at most 64 |
| BitUtils.CountBelowZero | bitutils.h:22-31 | no bit is set below k exactly when the count below k is 0 |
| BitUtils.CountBelowClear | bitutils.h:35-41 | clearing a set bit n lowers the count below k by one when n < k |
| BitUtils.CountSetBit | bitutils.h:8-12 | setting one bit raises the count by at most one |
| BitUtils.CountBelowSubset | bitutils.h:22-31 | a subset never has more set bits |
| BitUtils.CountBelowOr | bitutils.h:22-31 | the count of an or is at most the sum of the counts |
| BitUtils.Clz | bitutils.h:38 | the number of leading zeros of a non-zero word: bit 63 - clz is set and every higher bit is clear |
| BitUtils.Log2 | bitutils.h:6 | LOG2 of a non-zero word is the index of its highest set bit |
| BitUtils.ZeroIffNoBit | bitutils.h:22-31 | a word is zero exactly when none of its 64 bits is set |
| BitUtils.PopCount | bitutils.h:22-31 | the loop returns the number of set bits, which is in 0..64 and is 0 exactly for the zero word |
| BitUtils.PopNextIndex | bitutils.h:35-41 | for a non-zero word, returns the highest set bit and the word with exactly that bit cleared, whose count is one less |
| Board.PlayerOf | board.h:31-35 | a piece is White's exactly when its enum value is below 6 |
| Board.Opponent | board.h:37 | the other side |
| Board.KingOf | board.h:31-35 | the king of a side is a king owned by that side |
| Board.Place | board.h:54-70 | the PLACES value of a file and rank (a8 = 0 to h1 = 63): its column is the file and its row is 8 - rank |
| Board.StartingKings | board.h:39-51 | the starting state has White to move and the starting board; its only white king is on e1 (60), its only black king on e8 (4) |
| Board.Blanks | board.h:139-147 | d blank squares |
| Board.PieceForLetter | board.h:151-166 | a known letter is in 65..122 and gives a piece that is White's exactly for an upper-case letter |
| Board.ScanPlacement | board.h:136-170 | a completed parse has 64 squares extending what was written; an unknown letter stops it with fewer than 64 squares written |
| Board.ScanDigit | board.h:139-147 | a digit d in 1..8 writes exactly d blank squares and moves on one character |
| Board.ScanLetter | board.h:148-169 | a piece letter writes its piece on the next square and moves on one character |
| Board.ScanUnknown | board.h:148-169 | any other character in 65..122 stops the parse with -1, keeping what was written |
| Board.ScanSkip | board.h:136-170 | a character outside 1..8 and 65..122, such as '/', is skipped without writing |
| Board.ScanSeparator | board.h:136-170 | a '/' is skipped without writing |
| Board.ScanIgnoresRest | board.h:136 | once 64 squares are written (or an unknown letter is met), the characters after that point are never read |
| Board.ScanLetters | board.h:148-169 | a run of piece letters writes those pieces in order |
| Board.ParseTestFen1 | board.h:75 | parsing test_fenstring_1 gives exactly board_starting_config |
| Board.FenRank8 | board.h:39-40 | "rnbqkbnr" writes black's back rank |
| Board.FenRank7 | board.h:41 | "/pppppppp" writes eight black pawns |
| Board.FenEmptyRanks | board.h:42-45 | "/8/8/8/8" writes 32 blank squares |
| Board.FenRank2 | board.h:46 | "/PPPPPPPP" writes eight white pawns |
| Board.FenRank1 | board.h:47-48 | "RNBQKBNR" completes the board with white's back rank |
| Board.ReadState | board.h:120-172 | returns 1 exactly when the placement parses, with the squares set to the parsed board; returns -1 at an unknown letter with the squares written up to it and the rest untouched; never sees the side to move |
| Rules.CoordX | legal_moves.h:35-39 | the column of a square is in 0..7 |
| Rules.CoordY | legal_moves.h:41-45 | the row of a square, counted from the bottom, is in 0..7 |
| Rules.CoordToIndex | legal_moves.h:47-51 | the index of a column and row is a square |
| Rules.IndexToCoordRoundTrip | legal_moves.h:35-51 | coord_xy_to_board_index inverts (coord_x, coord_y) |
| Rules.CoordToIndexRoundTrip | legal_moves.h:35-51 | (coord_x, coord_y) inverts coord_xy_to_board_index |
| Rules.PlacesAgreeWithCoordinates | board.h:54-70 | the PLACES square on file f and rank r is coord_xy_to_board_index(f, r - 1) |
| Rules.SquareInDirection | legal_moves.h:69-86 | the result is -1 or a square |
| Rules.SquareInDirectionCoordinates | legal_moves.h:69-86 | the result is -1 exactly when n steps in the direction leave the board on either axis; otherwise it is the square at those coordinates, so nothing wraps round an edge |
| Rules.FarStepLeavesBoard | legal_moves.h:69-86 | eight or more steps always leave the board |
| Rules.StepLeavesStart | legal_moves.h:69-86 | one or more steps never come back to the start |
| Rules.StepsAreDistinct | legal_moves.h:69-86 | two step counts that reach the same square are equal |
| Rules.KnightSquare | legal_moves.h:88-107 | the result is -1 or a square |
| Rules.KnightSquareCoordinates | legal_moves.h:88-107 | the result is -1 exactly when the knight translation leaves the board; otherwise it is the translated square |
| Rules.KnightJumpShape | legal_moves.h:88-107 | a knight target differs by 1 and 2 (or 2 and 1) in the two coordinates |
| Rules.RayMoves | legal_moves.h:109-135 | the ray is exactly the squares before the first occupied one, plus that square when it holds an enemy |
| Rules.FillLegalSquaresInDirection | legal_moves.h:109-135 | the loop computes the ray |
| Rules.RayCoversEmptySquares | legal_moves.h:109-135 | every empty square before the first occupied one is in the ray |
| Rules.RayStopsAtFirstPiece | legal_moves.h:109-135 | nothing beyond the first occupied square is in the ray, and that square only when it holds an enemy |
| Rules.RayNeverFriendly | legal_moves.h:109-135 | a ray never contains a square of the moving side |
| Rules.RayMovesCount | legal_moves.h:109-135 | a ray has at most 7 squares |
| Rules.SliderMoves | legal_moves.h:137-177 | a square is reached exactly when it is on the ray of one of the directions lo..hi |
| Rules.SliderMovesCount | legal_moves.h:137-177 | a slider over k directions reaches at most 7k squares |
| Rules.StepSquares | legal_moves.h:109-135 | the squares 1..n steps away, at most n of them |
| Rules.QueenMoves | legal_moves.h:137-149 | a square is a queen move exactly when it lies on the ray of one of the eight directions |
| Rules.BishopMoves | legal_moves.h:151-163 | a square is a bishop move exactly when it lies on one of the four diagonal rays |
| Rules.RookMoves | legal_moves.h:165-177 | a square is a rook move exactly when it lies on one of the four straight rays |
| Rules.LegalMoveQueen | legal_moves.h:137-149 | the loop gives the union of the rays in all eight directions |
| Rules.LegalMoveBishop | legal_moves.h:151-163 | the loop gives the union of the four diagonal rays |
| Rules.LegalMoveRook | legal_moves.h:165-177 | the loop gives the union of the four straight rays |
| Rules.QueenIsRookOrBishop | legal_moves.h:137-177 | the queen's moves are the rook's moves or-ed with the bishop's |
| Rules.KnightMovesBelow | legal_moves.h:179-200 | a square is reached exactly when one of the first k knight translations lands on it and it is not held by the mover's side |
| Rules.KnightMoves | legal_moves.h:179-200 | a square is a knight move exactly when one of the eight knight translations lands on it and it is empty or holds an enemy |
| Rules.LegalMoveKnight | legal_moves.h:179-200 | the loop gives the knight's moves |
| Rules.KnightMovesAreJumps | legal_moves.h:179-200 | every knight move is a knight jump |
| Rules.KingMovesBelow | legal_moves.h:242-261 | a square is reached exactly when one of the first k one-step directions lands on it and it is not held by the mover's side |
| Rules.KingMoves | legal_moves.h:242-261 | a square is a king move exactly when one of the eight one-step directions lands on it and it is empty or holds an enemy |
| Rules.LegalMoveKing | legal_moves.h:242-261 | the loop gives the king's moves |
| Rules.KingMovesAreAdjacent | legal_moves.h:242-261 | every king move goes to a different, adjacent square |
| Rules.PawnMoves | legal_moves.h:202-240 | the pawn moves are exactly: the single push to a blank square; the double push from the side's initial rank with both squares blank; the diagonal captures of enemy pieces. The direction is the side to move's |
| Rules.LegalMovePawn | legal_moves.h:202-240 | the generator gives the pawn moves |
| Rules.PseudoMoves | legal_moves.h:476-502 | an empty square generates nothing; every generated move goes to another square that is empty or holds an enemy, never to a piece of the mover's side |
| Rules.EndDistance | legal_moves.h:263-280 | the walk stops at the first occupied or off-board step, with every step before it on the board and blank |
| Rules.EndOfDirection | legal_moves.h:263-280 | the result is -1 or an occupied square |
| Rules.GetSquareAtEndOfDirection | legal_moves.h:263-280 | the loop returns the first occupied square in the direction, or -1 |
| Rules.StraightLineAttack | legal_moves.h:290-302 | finds an attack exactly when an enemy rook or queen ends one of the four straight lines |
| Rules.DiagonalLineAttack | legal_moves.h:304-316 | finds an attack exactly when an enemy bishop or queen ends one of the four diagonals |
| Rules.KnightAttack | legal_moves.h:318-330 | finds an attack exactly when an enemy knight stands a knight jump away |
| Rules.PawnAttack | legal_moves.h:332-344 | finds an attack exactly when an enemy pawn stands on one of the king's two capture squares |
| Rules.IsKingInCheck | legal_moves.h:282-346 | returns 0 or 1, and 1 exactly when one of the four attacks exists |
| Rules.AttackIsCheck | legal_moves.h:282-346 | any single attack is check |
| Rules.NoAttackNoCheck | legal_moves.h:282-346 | without an attack of any of the four kinds there is no check |
| Rules.Checkers | legal_moves.h:348-413 | a square is reported exactly when the piece on it checks the king |
| Rules.WhichPiecesCheckKing | legal_moves.h:348-413 | the loops return exactly the squares of the checking pieces |
| Rules.LineScanStep | legal_moves.h:357-383 | one round of the line scan adds exactly that line's checker |
| Rules.KnightScanStep | legal_moves.h:385-397 | one round of the knight scan adds exactly that jump's checker |
| Rules.PawnScanStep | legal_moves.h:399-411 | one round of the pawn scan adds exactly that capture square's checker |
| Rules.InCheck | legal_moves.h:282-413 | the king is in check exactly when which_pieces_check_king reports some checker |
| Rules.AttackedIffCheckers | legal_moves.h:282-413 | one of the four attacks of is_king_in_check exists exactly when which_pieces_check_king is non-zero |
| Rules.CheckersAreEnemyAttackers | legal_moves.h:348-413 | every reported checker is an enemy piece other than a king, of the kind that attacks along its line |
| Rules.MakeMove | legal_moves.h:415-424 | the other side is to move, the origin is blank, the destination holds the moved piece and every other square is unchanged |
| Rules.MakeMoveUndo | legal_moves.h:415-424 | a move to an empty square followed by the reverse move gives back the position |
| Rules.FirstIndexOf | legal_moves.h:426-443 | -1 exactly when the piece is absent; otherwise the first square holding it |
| Rules.FindPiece | legal_moves.h:426-443 | the scan returns the first square holding the piece, or -1 |
| Rules.KingSafeAfter | legal_moves.h:456-467 | a trial move counts as safe only when the mover's king is on the board both before and after it |
| Rules.FilterLegal | legal_moves.h:445-469 | keeps exactly the moves after which the mover's king is on the board and not in check |
| Rules.EnsureMovesAreLegal | legal_moves.h:445-469 | the loop clears exactly the moves that leave the mover's king in check, each tried on a fresh copy of the position |
| Rules.LegalMoveSet | legal_moves.h:471-505 | a destination is legal exactly when the piece's generator gives it and the mover's king is safe afterwards |
| Rules.LegalMoves | legal_moves.h:471-505 | legal_moves runs the generator for the piece's kind, then the filter |
| Rules.BlankHasNoLegalMoves | legal_moves.h:471-505 | an empty square has no legal move |
| Rules.LegalMoveIsSafeCapture | legal_moves.h:471-505 | a legal move goes to another square that is empty or holds an enemy, and leaves the mover's king on the board |
| Rules.OwnPieceTrialsKeepKing | legal_moves.h:445-469 | for a piece of the side to move whose king is on the board, no trial move removes the king, so legal_moves is defined |
| Rules.IsCheckMate | legal_moves.h:507-523 | returns 0 or 1, and 1 exactly when no piece of the king's side has a legal move |
| Rules.SideToMoveCheckMateDefined | legal_moves.h:507-523 | the test is defined for the side to move when its king is on the board |
| Rules.MakeMoveInPlace | legal_moves.h:415-424 | as written: the copy shares the caller's board, so the caller's squares are moved too |
| Rules.SharedBoardTrials | legal_moves.h:456-467 | the origin keeps its piece or is blank after any number of shared trials |
| Rules.EnsureMovesAreLegalAsWritten | legal_moves.h:445-469 | as written: the caller's board ends up with all trial moves applied, and each trial is judged on the board left by the earlier ones |
| Rules.SharedTrialsSkip | legal_moves.h:456-467 | trials of moves not in the set leave the shared board alone |
| Rules.StartPawnMoves | legal_moves.h:202-240 | in the starting position the a2 pawn can go to a3 and a4 only |
| Rules.WhiteA2PawnMoves | legal_moves.h:202-240 | with White to move and a3, a4 and b3 empty, a pawn on a2 goes to a3 or a4 |
| Rules.SharedTrialsMoveThePawn | legal_moves.h:419-422 | asking for the a2 pawn's legal moves in the starting position leaves the caller's board changed: the pawn is on a4 and a2 and a3 are empty |
| Rules.KingCapturesKing | legal_moves.h:282-346 | because the enemy king is never tested, a king on e1 may legally capture the enemy king on e2, leaving a position without a black king |
| MovesGeneration.RookOf | board.h:31-35 | the rook of a side is a rook owned by that side |
| MovesGeneration.IsCastling | moves_generation.h:6-18 | returns 0 or 1, and 1 exactly when the side to move's king is on the origin and the same side's rook is on the destination |
| MovesGeneration.Swap | moves_generation.h:20-25 | exchanges the two cells and changes nothing else |
| MovesGeneration.Swapped | moves_generation.h:20-25 | the two cells exchanged, the others unchanged |
| MovesGeneration.SwapTwice | moves_generation.h:20-25 | swapping twice restores the board |
| MovesGeneration.IsEmpty | moves_generation.h:32-37 | returns 0 or 1, and 1 exactly when the square is blank |
| MovesGeneration.SquareIndex | moves_generation.h:40-63 | -1 unless the name has two characters and a rank digit; with a file letter a..h and a rank 1..8 it is (file - 'a') + (8 - rank) * 8, a square; a bad file letter with a good rank gives -1 + (8 - rank) * 8 |
| MovesGeneration.StrToBoardIndex | moves_generation.h:40-63 | the method computes that index step by step |
| MovesGeneration.SquareIndexInjective | moves_generation.h:40-63 | two valid names with the same index are the same name |
| MovesGeneration.SquareIndexC3 | moves_generation.h:38-39 | "c3" is square 42 |
| MovesGeneration.SquareIndexBadFile | moves_generation.h:45-57 | "z1" gives 55, not -1 |
| MovesGeneration.Move | moves_generation.h:69-96 | the board becomes AfterMove of the two square indices: a move to a blank square swaps the two cells, a capture that is not castling blanks the destination and then swaps, and every other case leaves the board as it was |
| MovesGeneration.QuietMoveEffect | moves_generation.h:76-82 | a move to a blank square swaps origin and destination: the piece moves, the origin is blank, nothing else changes |
| MovesGeneration.CaptureEffect | moves_generation.h:84-89 | a capture that is not castling leaves the mover on the destination and the origin blank, nothing else changed |
| MovesGeneration.MoveNoEffect | moves_generation.h:73-94 | an invalid square name, a blank origin or the castling case changes nothing |
| MovesGeneration.MoveOntoItselfErases | moves_generation.h:84-89 | a capture from a square onto itself blanks it |
| Evaluation.Power | evaluation.h:13-19 | the loop computes a to the n, 1 for n <= 0 |
| Evaluation.PowAdd | evaluation.h:13-19 | a^(m+n) = a^m * a^n |
| Evaluation.PowPositive | evaluation.h:13-19 | a positive base gives a positive power |
| Evaluation.PowMonotone | evaluation.h:13-19 | for a base of at least 1 the power grows with n and is at least 1 |
| Evaluation.PowBaseMonotone | evaluation.h:13-19 | for bases of at least 1 the power grows with the base |
| Evaluation.EvalMaterial | evaluation.h:100-112 | the loop returns the sum of Piece_Value over the non-blank squares |
| Evaluation.StartingMaterial | evaluation.h:27 | because the table is misaligned with the enum, the starting position's material is -5600 |
| Evaluation.MaterialEight | evaluation.h:100-112 | eight squares add their eight table values |
| Evaluation.MaterialGap | evaluation.h:100-112 | blank squares add nothing |
| Evaluation.EvalSpaceCoverage | evaluation.h:28-39 | the loop returns the sum of y + 1 over white pawns and y - 8 over black pawns |
| Evaluation.SpaceSigns | evaluation.h:28-39 | a white pawn adds 1..8, a black pawn -8..-1, anything else 0 |
| Evaluation.SpaceGap | evaluation.h:28-39 | squares without pawns add nothing |
| Evaluation.SpaceEight | evaluation.h:28-39 | eight squares add their eight contributions |
| Evaluation.StartingSpace | evaluation.h:28-39 | the starting position's pawn space is 0 |
| Evaluation.EvalMajorPiecesMobility | evaluation.h:42-98 | the loop returns the sum of the pieces' mobility terms |
| Evaluation.MobilitySigns | evaluation.h:42-98 | a knight adds plus or minus 0.875 times its move count; a bishop, rook or queen adds at least 1 for White and at most -1 for Black; kings, pawns and blanks add 0 |
| Evaluation.RookMobilityIgnoresRookMoves | evaluation.h:72-82 | a white rook with no bishop-style moves scores exactly 1, whatever its rook moves |
| Evaluation.EvalComprehensive | evaluation.h:114-121 | returns 0.75 material + 0.05 space + 0.2 mobility |
| Evaluation.MaterialAndSpaceIgnoreTurn | evaluation.h:28-112 | material and space do not depend on the side to move |
| Evaluation.RookBasePowerBound | evaluation.h:10 | 1.17 to the 28th is at most 82 |
| Evaluation.SliderPowerBound | evaluation.h:61-93 | a bishop, rook or queen's power term, its base to the count of its bishop moves, lies in 1..82 |
| Evaluation.MobilityOf | evaluation.h:47-95 | one piece's mobility term lies in -82..82 |
| Evaluation.MaterialBelowBound | evaluation.h:100-112 | the material of k squares lies within plus or minus 900k |
| Evaluation.SpaceBelowBound | evaluation.h:28-39 | the space of k squares lies within plus or minus 8k |
| Evaluation.MobilityBelowBound | evaluation.h:42-98 | the mobility of k squares lies within plus or minus 82k |
| Evaluation.Material | evaluation.h:100-112 | the material of a position lies within plus or minus 57600 |
| Evaluation.Space | evaluation.h:28-39 | the pawn space of a position lies within plus or minus 512 |
| Evaluation.Mobility | evaluation.h:42-98 | the mobility of a position lies within plus or minus 5248 |
| Evaluation.Comprehensive | evaluation.h:114-121 | the evaluation lies within plus or minus 45000, well inside the search's plus or minus 1000000 |
| Search.MakeMove2 | ai.h:95 | the other side is to move, the origin is blank, the destination holds the moved piece (unless it is the origin) and every other square is unchanged |
| Search.KingPresentScanDefined | ai.h:80 | with its king on the board, the side to move can list all its legal moves |
| Search.BitsToMovesMembership | ai.h:80 | the moves from one square are exactly its set destination bits |
| Search.MovesBelowMembership | ai.h:80 | the moves from the squares below i are exactly their legal destinations |
| Search.LegalMoveList | ai.h:80 | a move is listed exactly when its origin holds a piece of the side to move and its destination is a legal move of that piece |
| Search.NoMovesIffNoLegalMove | ai.h:80-81 | the list is empty exactly when is_check_mate would answer 1 for the side to move |
| Search.BitsToMovesZero | ai.h:80 | an empty bitboard lists no move |
| Search.AppendMoves | ai.h:80 | one origin square's destination bits extend the list by exactly the moves they stand for, in order |
| Search.GetLegalMovesAsMoveArray | ai.h:80 | the scan returns the list |
| Search.CompareTwoMoves | ai.h:22-28 | -1, 0 or 1 as a's value is below, equal to or above b's |
| Search.Key | ai.h:30-38 | a move's sort key is minus the evaluation after it when White moves and the evaluation after it when Black moves; it lies within plus or minus 45000 |
| Search.Annotate | ai.h:30-38 | each move paired with its successor's evaluation, negated when White moves |
| Search.Strip | ai.h:40-46 | the moves of the pairs, in order |
| Search.InsertByValuePerm | ai.h:52 | inserting adds exactly the one element |
| Search.InsertByValueSorted | ai.h:52 | inserting into a sorted sequence keeps it sorted |
| Search.SortByValue | ai.h:52 | the sort returns a sorted permutation of its input |
| Search.StripInsert | ai.h:40-52 | inserting a pair adds exactly its move to the moves of the sequence |
| Search.StripSort | ai.h:40-52 | sorting the pairs keeps the multiset of their moves |
| Search.SortedMoves | ai.h:48-54 | sort_moves_by_static_eval returns a permutation of the moves (each move as often as before), ordered by non-decreasing evaluation times -1 for White, 1 for Black |
| Search.StripSortSpec | ai.h:48-54 | building the pairs, sorting them and copying the moves back gives that ordered permutation |
| Search.Searcher.CreateMoveValueArrayFromMoveArray | ai.h:30-38 | fills the pairs with each move and its key |
| Search.Searcher.QSort | ai.h:52 | the array becomes the sorted permutation |
| Search.Searcher.CreateMoveArrayFromMoveValueArray | ai.h:40-46 | copies the moves back in order |
| Search.Searcher.SortMovesByStaticEval | ai.h:48-54 | the moves array becomes the sorted moves |
| Search.TerminalScore | ai.h:81-90 | 1000 exactly when Black's king is in check, -1000 exactly when White's is, -500 for Black and 500 for White otherwise |
| Search.Tree | ai.h:66-95 | a leaf exactly at depth 0; a terminal node exactly above depth 0 without a legal move; otherwise a node of the side to move with one child per legal move |
| Search.TreeNode | ai.h:91-95 | an inner node has one subtree per legal move, in search order: sorted above depth 1, scan order at depth 1 |
| Search.Max | ai.h:56-59 | the larger of the two |
| Search.Min | ai.h:61-64 | the smaller of the two |
| Search.Value | ai.h:66-115 | a leaf gives its static evaluation and a terminal node its score; a White node never returns less than -1000000, a Black node never more than 1000000 |
| Search.Loop | ai.h:93-114 | the move loop never returns a value worse for the side to move than the best it starts from |
| Search.Calls | ai.h:68 | every search counts at least one call, and a node with a legal move at least two |
| Search.WhiteLoop | ai.h:93-113 | at a White node the loop returns the maximum of the starting best and the decayed child values it visits; it stops early only after a value above beta, and every earlier value is at most beta |
| Search.BlackLoop | ai.h:93-113 | at a Black node the loop returns the minimum; it stops early only after a value below alpha, and every earlier value is at least alpha |
| Search.LoopStep | ai.h:96-112 | one round: White raises best and alpha and breaks after a value above beta; Black lowers best and beta and breaks after a value below alpha; the calls add up |
| Search.ValueBounded | ai.h:66-115 | a search value is bounded by the bound of its tree |
| Search.LoopBounded | ai.h:93-114 | the move loop stays within the bound of its tree |
| Search.TreeBounded | ai.h:66-115 | every leaf and terminal score is within plus or minus 45000 (ScoreBound) |
| Search.SearchValueBound | ai.h:66-115 | every search result lies within plus or minus 45000 (ScoreBound) |
| Search.NodeScanDefined | ai.h:80 | where the search is defined, listing the moves is defined |
| Search.OrderedChildDefined | ai.h:95-96 | the search below every ordered successor is defined |
| Search.ChildDefined | ai.h:95-96 | the search below every listed successor is defined |
| Search.EmptyBoardRoot | ai.h:117-186 | choose_best_move needs no king at the root: an empty board with White to move meets its precondition and has no legal move |
| Search.RootTrees | ai.h:141-148 | one tree per legal move, searched to SEARCH_DEPTH |
| Search.RootValues | ai.h:141-148 | one value per legal move |
| Search.RootChild | ai.h:147-148 | the i-th root value is the full-window search of the i-th successor, and it adds that search's calls |
| Search.ScanBest | ai.h:149-168 | the scan keeps its starting index or moves to a later one whose value is at least (White) or at most (Black) the starting best |
| Search.ScanBestWhite | ai.h:149-158 | the >= scan from -1000000 keeps a maximum, and the last one |
| Search.ScanBestBlack | ai.h:159-168 | the <= scan from 1000000 keeps a minimum, and the last one |
| Search.RootScan | ai.h:126-169 | the root scan finds a move exactly when there is one, and it is the last of the best for the side to move |
| Search.Searcher.constructor | ai.h:15 | the counter starts at 0 |
| Search.Searcher.MinimaxEvalAlphaBetaPruning | ai.h:66-115 | returns the value of the searched tree and adds exactly its calls to the counter |
| Search.Searcher.SearchMoves | ai.h:93-114 | the move loop returns the loop value and adds its calls |
| Search.Searcher.ChooseBestMove | ai.h:117-186 | returns -1 exactly when there is no legal move; otherwise 1 and the last best move; the counter is reset and then counts every search call |
| Search.Searcher.SearchRootMoves | ai.h:138-169 | the root loop finds the last best move and adds its calls |
| Search.Searcher.RootStep | ai.h:141-168 | one root move keeps the scan's invariant and adds exactly the calls of that move's full-window search |
| Search.LeafIsStaticEvaluation | ai.h:69-70 | at depth 0 the search returns eval_comprehensive, in one call |
| Search.NoMoveScores | ai.h:81-90 | without legal moves: 1000 when Black is in check, -1000 when White is, -500 for Black and 500 for White on stalemate, in one call |
| AiVsAi.EvalComprehensiveVariant | main-ai-vs-ai.c:306-321 | returns 0.8 material + 0.05 space + 1.5 mobility, with the same misaligned table, within plus or minus 54000 |
| AiVsAi.ComprehensiveVariant | main-ai-vs-ai.c:306-321 | the variant evaluation lies within plus or minus 54000 |
| AiVsAi.EvaluatorsDiffer | main-ai-vs-ai.c:319 | it exceeds the evaluation of evaluation.h by exactly 0.05 material + 1.3 mobility |
| AiVsAi.Better | main-ai-vs-ai.c:348-359 | White takes a value at least as high as the best, Black one at least as low; otherwise the best stays |
| AiVsAi.BestOverSpec | main-ai-vs-ai.c:336-363 | after any list of moves the best is at least every child value for White (at most for Black), and it is the initial value or one of them |
| AiVsAi.MinimaxNode | main-ai-vs-ai.c:328-364 | with no legal move minimax_eval returns minus or plus 1000000; otherwise the maximum (White) or minimum (Black) over every successor |
| AiVsAi.MinimaxValue | main-ai-vs-ai.c:323-365 | every minimax value lies within plus or minus 1000000 |
| AiVsAi.BestOver | main-ai-vs-ai.c:336-363 | the best over any list of moves lies within plus or minus 1000000 |
| AiVsAi.ChildValue | main-ai-vs-ai.c:346-347 | every successor's value lies within plus or minus 1000000 |
| AiVsAi.RootMinimaxValues | main-ai-vs-ai.c:394-395 | one depth-3 value per legal move |
| AiVsAi.RootChoice | main-ai-vs-ai.c:384-418 | the root scan finds a move exactly when there is one, and it is the last of the best for the side to move |
| AiVsAi.LeafValue | main-ai-vs-ai.c:325-326 | at depth 0 minimax_eval returns eval_comprehensive(s, 0) |
| AiVsAi.MinimaxUnfold | main-ai-vs-ai.c:336-364 | above depth 0 the value is the fold over all legal moves in scan order |
| AiVsAi.RootValueAt | main-ai-vs-ai.c:394-395 | the n-th root value is the depth-3 minimax of the n-th successor |
| AiVsAi.Engine.constructor | main-ai-vs-ai.c:211 | eval_function starts unset |
| AiVsAi.Engine.MinimaxEvalMethod | main-ai-vs-ai.c:323-365 | with eval_function set to minimax_eval, the loops return the minimax value |
| AiVsAi.Engine.MinimaxSquare | main-ai-vs-ai.c:338-362 | one origin square's moves extend the fold |
| AiVsAi.Engine.MinimaxMove | main-ai-vs-ai.c:344-360 | one move updates the best as Better does |
| AiVsAi.Engine.ChooseBestMove | main-ai-vs-ai.c:367-423 | sets eval_function to minimax_eval; returns -1 exactly when there is no legal move, otherwise 1 and the origin and destination of the last best move |
| AiVsAi.Engine.RootSquare | main-ai-vs-ai.c:386-417 | one origin square's moves extend the root scan |
| AiVsAi.Engine.RootMove | main-ai-vs-ai.c:392-415 | one move updates the root scan |
| AiVsAi.GetFileForBoardIndex | main-ai-vs-ai.c:434-439 | the file letter of a square is 'a' + index % 8 |
| AiVsAi.GetRankForBoardIndex | main-ai-vs-ai.c:427-432 | the rank digit of a square is '1' + (63 - index) / 8 |
| AiVsAi.SquareNameRoundTrip | main-ai-vs-ai.c:425-439 | str_to_boardindex of a square's file and rank gives back the square |

## Left out

- User interface: gui.h and the SDL window, textures, mouse handling and main loop of main-ai-vs-ai.c. These are graphics and input, not engine logic.
- Timing and output: wall-clock timing in choose_best_move, and all printing (print_board, print_board_state, chars_for_pieces, the fprintf calls). These are I/O.
- eval_random: it draws from rand(), so it is not a function of the position.
- Float rounding: scores, the 0.98 decay and power are exact reals. IEEE single-precision rounding is not modelled.
- The 256-entry move arrays: the move lists are unbounded sequences. No position reached by the generator has more than 256 moves of one side, but that is not proved.
- Search.Searcher.QSort: the library qsort does not promise an order for equal values. The model uses a stable insertion sort, so the order of equally valued moves is one particular choice. That choice can matter beyond the order of the moves. The window passed to the children is not rescaled by the 0.98 decay (ai.h:96), so which cutoffs happen depends on the order of the children. A different tie order can therefore change the VALUE that minimax_eval_alpha_beta_pruning returns, not only the move chosen.
- Search.Searcher.ChooseBestMove and AiVsAi.Engine.ChooseBestMove: with no legal move the source returns an uninitialised move or uninitialised squares. The model returns whatever its out-parameters hold and promises nothing about them.
- Castling, en passant and promotion: the generator has none of them, and the castling branch of `move` is empty, so the model has none either.
- Search.TerminalScore: with no king of the side to move on the board the source reads outside the board. The model scores that case as stalemate, and SearchDefined excludes it from the search.
- Undefined behaviour is covered by preconditions:
  - LOG2 of zero;
  - a king search that finds nothing, which would pass index -1 to is_king_in_check (TrialsKeepKing, LegalMovesDefined, CheckMateDefined, SearchDefined, MinimaxDefined). At the root of choose_best_move no such call happens, so Search.Searcher.ChooseBestMove asks only that the moves can be listed and that the search below each of them is defined;
  - read_state reading past the end of its string (ParsePlacement not Undefined);
  - str_to_boardindex on strings shorter than two characters.
- get_player of BLANK: the source's helper is not shown. The model lets BLANK belong to no side, so the searches skip empty squares.
- Helpers not shown (make_move_2, get_legal_moves_as_move_array, the Move bit accessors, is_move_legal): defined only as far as their callers use them. The scan order of get_legal_moves_as_move_array (origin by origin, then destination by destination, both ascending) is an ASSUMPTION of the model. It decides which of several equally good root moves choose_best_move returns, and the order of the children at depth 1, where the moves are not sorted, and with it which cutoffs happen there.
- BitUtils.PopNextIndex: the source clears the bit through the pointer it is given; the model returns the cleared word as a second result.
- Rules.MakeMove, Rules.EnsureMovesAreLegal and the searches: the model gives make_move copy semantics. The source's shared board is modelled separately; see Findings.
- The helper methods split out of is_king_in_check, minimax_eval and choose_best_move (one per scan, per origin square and per move) are the source's own loops, moved into methods of their own.
- Search.Searcher.nStatesExplored: the counter is a `nat`, while the source's n_states_explored is an `unsigned int` (ai.h:15) that wraps round at 2^32. No result of the search depends on it.
- eval_function: the function pointer is modelled as a field that is either unset or minimax_eval, the only function assigned to it.
- The game driver of main-ai-vs-ai.c (its alternation of moves, the checkmate and stalemate announcements) and test.c, main.c and uci-to-pgn.py are drivers, not engine logic.

## Findings

| source | as written | input that shows it | evidently intended | confidence | as-written member | corrected member |
|---|---|---|---|---|---|---|
| legal_moves.h:415-424 | make_move copies game_state, but its `squares` member is a pointer (board.h:27). The "copy" therefore writes into the caller's board. ensure_moves_are_legal (legal_moves.h:460) tries each candidate move on it, so the trials pile up on the caller's position. | legal_moves(starting_state, 48), the a2 pawn: the caller's board ends with the pawn on a4 and a2 and a3 empty, although no move was played | each trial move is made on a copy, and the caller's position is unchanged | not executed | Rules.EnsureMovesAreLegalAsWritten, Rules.SharedTrialsMoveThePawn | Rules.EnsureMovesAreLegal |
