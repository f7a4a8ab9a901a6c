/**
 * The static evaluation of evaluation.h: material from the Piece_Value
 * table, pawn space, and the mobility of knights, bishops, rooks and
 * queens, combined with the weights 0.75, 0.05 and 0.2.  Scores are reals.
 */
module Evaluation {
  import opened BitUtils
  import opened Board
  import opened Rules

  const KnightMobVal: real := 0.875
  const BishopMobVal: real := 1.149
  const RookMobVal: real := 1.17
  const QueenMobVal: real := 1.093

  // ---------------------------------------------------------------------
  // power

  /** a raised to the n-th power; 1 for every n <= 0, as the loop of power never runs then. */
  function Pow(a: real, n: int): (r: real)
    decreases n
  {
    if n <= 0 then 1.0 else a * Pow(a, n - 1)
  }

  /** power: multiplies `result` by a, n times. */
  method Power(a: real, n: int) returns (result: real)
    ensures result == Pow(a, n)
  {
    result := 1.0;
    var i := 1;
    while i <= n
      invariant 1 <= i <= (if n >= 1 then n + 1 else 1)
      invariant result == Pow(a, i - 1)
    {
      result := result * a;
      i := i + 1;
    }
  }

  /** Powers add their exponents: a^(m+n) = a^m * a^n. */
  lemma {:induction false} PowAdd(a: real, m: nat, n: nat)
    ensures Pow(a, m + n) == Pow(a, m) * Pow(a, n)
    decreases m
  {
    if m > 0 {
      PowAdd(a, m - 1, n);
      assert Pow(a, m + n) == a * Pow(a, m - 1 + n);
    }
  }

  /** A positive base has positive powers. */
  lemma {:induction false} PowPositive(a: real, n: int)
    requires a > 0.0
    ensures Pow(a, n) > 0.0
    decreases n
  {
    if n > 0 {
      PowPositive(a, n - 1);
    }
  }

  /** A base of at least 1 gives powers that grow with the exponent. */
  lemma {:induction false} PowMonotone(a: real, m: int, n: int)
    requires a >= 1.0 && 0 <= m <= n
    ensures 1.0 <= Pow(a, m) <= Pow(a, n)
    decreases n
  {
    if m < n {
      PowMonotone(a, m, n - 1);
      assert Pow(a, n) == a * Pow(a, n - 1);
    } else if m > 0 {
      PowMonotone(a, m - 1, m - 1);
      assert Pow(a, m) == a * Pow(a, m - 1);
    }
  }

  // ---------------------------------------------------------------------
  // Material

  /**
   * Piece_Value, indexed by the piece enum.  The table has the layout of a
   * different enum, so the black entries are shifted: B_ROOK and B_KNIGHT
   * are worth 0 and B_PAWN -900.
   */
  const PieceValues: seq<real> :=
    [100.0, 60.0, 60.0, 900.0, 500.0, 10.0, 0.0, 0.0, -100.0, -60.0, -60.0, -900.0, -500.0, -10.0]

  /** The sum of Piece_Value over the non-blank squares below k. */
  function MaterialBelow(board: Squares, k: int): real
    requires 0 <= k <= 64
  {
    if k == 0 then 0.0 else MaterialBelow(board, k - 1) + ValueAt(board, k - 1)
  }

  /** The table value of the piece on square i, 0 for an empty square. */
  function ValueAt(board: Squares, i: int): real
    requires 0 <= i < 64
  {
    if board[i] != Blank then PieceValues[board[i]] else 0.0
  }

  /** The material score of a position: at most 900 per square either way. */
  function Material(s: GameState): (r: real)
    ensures -57600.0 <= r <= 57600.0
  {
    MaterialBelowBound(s.squares, 64);
    MaterialBelow(s.squares, 64)
  }

  /** eval_material: adds the table value of every non-blank square. */
  method EvalMaterial(s: GameState) returns (evaluation: real)
    ensures evaluation == Material(s)
  {
    evaluation := 0.0;
    for i := 0 to 64
      invariant evaluation == MaterialBelow(s.squares, i)
    {
      var piece := s.squares[i];
      if piece != Blank {
        evaluation := evaluation + PieceValues[piece];
      }
    }
  }

  /**
   * Because of the shifted table the starting position is not level: White
   * has 1920 and Black -7520, so the material score is -5600.
   */
  lemma StartingMaterial()
    ensures Material(StartingState) == -5600.0
  {
    var b := StartingState.squares;
    MaterialEight(b, 0);
    MaterialEight(b, 8);
    MaterialGap(b, 16, 48);
    MaterialEight(b, 48);
    MaterialEight(b, 56);
  }

  /** Eight consecutive squares add their eight values. */
  lemma MaterialEight(board: Squares, a: int)
    requires 0 <= a <= 56
    ensures MaterialBelow(board, a + 8) == MaterialBelow(board, a) +
      (ValueAt(board, a) + ValueAt(board, a + 1) + ValueAt(board, a + 2) + ValueAt(board, a + 3) +
       ValueAt(board, a + 4) + ValueAt(board, a + 5) + ValueAt(board, a + 6) + ValueAt(board, a + 7))
  {
    assert MaterialBelow(board, a + 2) == MaterialBelow(board, a) + ValueAt(board, a) + ValueAt(board, a + 1);
    assert MaterialBelow(board, a + 4) == MaterialBelow(board, a + 2) + ValueAt(board, a + 2) + ValueAt(board, a + 3);
    assert MaterialBelow(board, a + 6) == MaterialBelow(board, a + 4) + ValueAt(board, a + 4) + ValueAt(board, a + 5);
    assert MaterialBelow(board, a + 8) == MaterialBelow(board, a + 6) + ValueAt(board, a + 6) + ValueAt(board, a + 7);
  }

  /** A run of blank squares adds nothing to the material sum. */
  lemma {:induction false} MaterialGap(board: Squares, a: int, k: int)
    requires 0 <= a <= k <= 64
    requires forall i :: a <= i < k ==> board[i] == Blank
    ensures MaterialBelow(board, k) == MaterialBelow(board, a)
    decreases k - a
  {
    if a < k {
      MaterialGap(board, a, k - 1);
    }
  }

  // ---------------------------------------------------------------------
  // Space

  /** A white pawn on row y adds y + 1, a black pawn adds y - 8. */
  function SpaceOf(board: Squares, i: int): real
    requires 0 <= i < 64
  {
    if board[i] == WPawn then CoordY(i) as real + 1.0
    else if board[i] == BPawn then CoordY(i) as real - 8.0
    else 0.0
  }

  /** The space score of the squares below k. */
  function SpaceBelow(board: Squares, k: int): real
    requires 0 <= k <= 64
  {
    if k == 0 then 0.0 else SpaceBelow(board, k - 1) + SpaceOf(board, k - 1)
  }

  /** The space score of a position: at most 8 per square either way. */
  function Space(s: GameState): (r: real)
    ensures -512.0 <= r <= 512.0
  {
    SpaceBelowBound(s.squares, 64);
    SpaceBelow(s.squares, 64)
  }

  /** eval_space_coverage */
  method EvalSpaceCoverage(s: GameState) returns (spaceCovered: real)
    ensures spaceCovered == Space(s)
  {
    spaceCovered := 0.0;
    var space: real;
    for i := 0 to 64
      invariant spaceCovered == SpaceBelow(s.squares, i)
    {
      var piece := s.squares[i];
      if piece == WPawn || piece == BPawn {
        space := CoordY(i) as real;
        spaceCovered := if piece == WPawn then spaceCovered + space + 1.0 else spaceCovered - 8.0 + space;
      }
    }
  }

  /**
   * Every white pawn counts between 1 and 8 and every black pawn between
   * -8 and -1, so white pawns raise the score and black pawns lower it.
   */
  lemma SpaceSigns(board: Squares, i: int)
    requires 0 <= i < 64
    ensures board[i] == WPawn ==> 1.0 <= SpaceOf(board, i) <= 8.0
    ensures board[i] == BPawn ==> -8.0 <= SpaceOf(board, i) <= -1.0
    ensures board[i] != WPawn && board[i] != BPawn ==> SpaceOf(board, i) == 0.0
  {
  }

  /** A run of squares without pawns adds no space. */
  lemma {:induction false} SpaceGap(board: Squares, a: int, k: int)
    requires 0 <= a <= k <= 64
    requires forall i :: a <= i < k ==> board[i] != WPawn && board[i] != BPawn
    ensures SpaceBelow(board, k) == SpaceBelow(board, a)
    decreases k - a
  {
    if a < k {
      SpaceGap(board, a, k - 1);
    }
  }

  /** In the starting position the pawns balance: 8 * 2 for White, 8 * -2 for Black. */
  lemma StartingSpace()
    ensures Space(StartingState) == 0.0
  {
    var b := StartingState.squares;
    SpaceGap(b, 0, 8);
    forall i | 8 <= i < 16
      ensures SpaceOf(b, i) == -2.0
    {
      assert CoordY(i) == 6;
    }
    SpaceEight(b, 8);
    SpaceGap(b, 16, 48);
    forall i | 48 <= i < 56
      ensures SpaceOf(b, i) == 2.0
    {
      assert CoordY(i) == 1;
    }
    SpaceEight(b, 48);
    SpaceGap(b, 56, 64);
  }

  /** Eight consecutive squares add their eight space values. */
  lemma SpaceEight(board: Squares, a: int)
    requires 0 <= a <= 56
    ensures SpaceBelow(board, a + 8) == SpaceBelow(board, a) +
      (SpaceOf(board, a) + SpaceOf(board, a + 1) + SpaceOf(board, a + 2) + SpaceOf(board, a + 3) +
       SpaceOf(board, a + 4) + SpaceOf(board, a + 5) + SpaceOf(board, a + 6) + SpaceOf(board, a + 7))
  {
    assert SpaceBelow(board, a + 2) == SpaceBelow(board, a) + SpaceOf(board, a) + SpaceOf(board, a + 1);
    assert SpaceBelow(board, a + 4) == SpaceBelow(board, a + 2) + SpaceOf(board, a + 2) + SpaceOf(board, a + 3);
    assert SpaceBelow(board, a + 6) == SpaceBelow(board, a + 4) + SpaceOf(board, a + 4) + SpaceOf(board, a + 5);
    assert SpaceBelow(board, a + 8) == SpaceBelow(board, a + 6) + SpaceOf(board, a + 6) + SpaceOf(board, a + 7);
  }

  // ---------------------------------------------------------------------
  // Mobility

  /** +1 for a white piece, -1 for a black one. */
  function Sign(p: Piece): real
    requires p != Blank
  {
    if PlayerOf(p) == White then 1.0 else -1.0
  }

  /**
   * The mobility of the piece on square i: a knight counts 0.875 per move;
   * a bishop counts 1.149 to the number of its moves; a rook and a queen
   * count 1.17 and 1.093 to the number of BISHOP moves from their square.
   * Kings, pawns and empty squares count nothing.  A bishop's diagonals
   * hold at most 28 squares, so no power exceeds 1.17^28 and the score of
   * one square lies within 82 either way.
   */
  function MobilityOf(s: GameState, i: int): (r: real)
    requires 0 <= i < 64
    ensures -82.0 <= r <= 82.0
  {
    var p := s.squares[i];
    SliderPowerBound(s, i, BishopMobVal);
    SliderPowerBound(s, i, RookMobVal);
    SliderPowerBound(s, i, QueenMobVal);
    if p == Blank then 0.0
    else if IsKnight(p) then Sign(p) * (KnightMobVal * Count(KnightMoves(s, i)) as real)
    else if IsBishop(p) then Sign(p) * Pow(BishopMobVal, Count(BishopMoves(s, i)))
    else if IsRook(p) then Sign(p) * Pow(RookMobVal, Count(BishopMoves(s, i)))
    else if IsQueen(p) then Sign(p) * Pow(QueenMobVal, Count(BishopMoves(s, i)))
    else 0.0
  }

  /** The mobility of the squares below k. */
  function MobilityBelow(s: GameState, k: int): real
    requires 0 <= k <= 64
  {
    if k == 0 then 0.0 else MobilityBelow(s, k - 1) + MobilityOf(s, k - 1)
  }

  /** The mobility score of a position: at most 82 per square either way. */
  function Mobility(s: GameState): (r: real)
    ensures -5248.0 <= r <= 5248.0
  {
    MobilityBelowBound(s, 64);
    MobilityBelow(s, 64)
  }

  /** eval_major_pieces_mobility */
  method EvalMajorPiecesMobility(s: GameState) returns (mobility: real)
    ensures mobility == Mobility(s)
  {
    mobility := 0.0;
    var possibleMoves: Bitboard;
    var count: int;
    for i := 0 to 64
      invariant mobility == MobilityBelow(s, i)
    {
      var piece := s.squares[i];
      if piece != Blank {
        if IsKnight(piece) {
          possibleMoves := LegalMoveKnight(s, i);
          count := PopCount(possibleMoves);
          if PlayerOf(piece) == White {
            mobility := mobility + KnightMobVal * count as real;
          } else {
            mobility := mobility - KnightMobVal * count as real;
          }
        } else if IsBishop(piece) {
          possibleMoves := LegalMoveBishop(s, i);
          count := PopCount(possibleMoves);
          var pw := Power(BishopMobVal, count);
          if PlayerOf(piece) == White {
            mobility := mobility + pw;
          } else {
            mobility := mobility - pw;
          }
        } else if IsRook(piece) {
          possibleMoves := LegalMoveBishop(s, i);
          count := PopCount(possibleMoves);
          var pw := Power(RookMobVal, count);
          if PlayerOf(piece) == White {
            mobility := mobility + pw;
          } else {
            mobility := mobility - pw;
          }
        } else if IsQueen(piece) {
          possibleMoves := LegalMoveBishop(s, i);
          count := PopCount(possibleMoves);
          var pw := Power(QueenMobVal, count);
          if PlayerOf(piece) == White {
            mobility := mobility + pw;
          } else {
            mobility := mobility - pw;
          }
        }
      }
    }
  }

  /**
   * A white bishop, rook or queen always adds at least 1 and a black one
   * takes at least 1 away; a knight adds (or takes) 0.875 per move; kings
   * and pawns add nothing.
   */
  lemma MobilitySigns(s: GameState, i: int)
    requires 0 <= i < 64
    ensures var p := s.squares[i];
            (p != Blank && (IsBishop(p) || IsRook(p) || IsQueen(p)) ==>
               (PlayerOf(p) == White ==> MobilityOf(s, i) >= 1.0) &&
               (PlayerOf(p) == Black ==> MobilityOf(s, i) <= -1.0))
    ensures var p := s.squares[i];
            p != Blank && IsKnight(p) ==>
              MobilityOf(s, i) == Sign(p) * 0.875 * Count(KnightMoves(s, i)) as real
    ensures var p := s.squares[i];
            p == Blank || IsKing(p) || IsPawn(p) ==> MobilityOf(s, i) == 0.0
  {
    hide BishopMoves, KnightMoves;
    var p := s.squares[i];
    if p != Blank && IsBishop(p) {
      PowMonotone(BishopMobVal, 0, Count(BishopMoves(s, i)));
    } else if p != Blank && IsRook(p) {
      PowMonotone(RookMobVal, 0, Count(BishopMoves(s, i)));
    } else if p != Blank && IsQueen(p) {
      PowMonotone(QueenMobVal, 0, Count(BishopMoves(s, i)));
    }
  }

  /**
   * A rook's (and a queen's) mobility is scored from the bishop moves on its
   * square, so a rook whose diagonals are blocked scores 1.17^0 = 1 however
   * open its files and ranks are.
   */
  lemma RookMobilityIgnoresRookMoves(s: GameState, i: int)
    requires 0 <= i < 64 && s.squares[i] == WRook
    requires BishopMoves(s, i) == Zero()
    ensures MobilityOf(s, i) == 1.0
  {
    ZeroIffNoBit(BishopMoves(s, i));
    CountBelowZero(BishopMoves(s, i), 64);
  }

  // ---------------------------------------------------------------------
  // The combined score

  /**
   * The comprehensive evaluation: 0.75 material + 0.05 space + 0.2 mobility,
   * within 45000 either way, well inside the search's +-1000000 window.
   */
  function Comprehensive(s: GameState): (r: real)
    ensures -45000.0 <= r <= 45000.0
  {
    0.75 * Material(s) + 0.05 * Space(s) + 0.2 * Mobility(s)
  }

  /** eval_comprehensive */
  method EvalComprehensive(s: GameState) returns (evaluation: real)
    ensures evaluation == 0.75 * Material(s) + 0.05 * Space(s) + 0.2 * Mobility(s)
    ensures evaluation == Comprehensive(s)
  {
    evaluation := 0.0;
    var material := EvalMaterial(s);
    var mobility := EvalMajorPiecesMobility(s);
    var spaceCovered := EvalSpaceCoverage(s);
    evaluation := 0.75 * material + 0.05 * spaceCovered + 0.2 * mobility;
  }

  /** The evaluation does not depend on the side to move except through mobility. */
  lemma MaterialAndSpaceIgnoreTurn(s: GameState, t: Turn)
    ensures Material(GameState(s.squares, t)) == Material(s)
    ensures Space(GameState(s.squares, t)) == Space(s)
  {
  }

  // ---------------------------------------------------------------------
  // Bounds: every static score lies well inside the search window

  /** A larger base of at least 1 gives a larger power. */
  lemma {:induction false} PowBaseMonotone(a: real, b: real, n: int)
    requires 1.0 <= a <= b
    ensures 1.0 <= Pow(a, n) <= Pow(b, n)
    decreases n
  {
    if n > 0 {
      PowBaseMonotone(a, b, n - 1);
      var x := Pow(a, n - 1);
      var y := Pow(b, n - 1);
      assert a * x <= b * x <= b * y;
    }
  }

  /** 1.17^28 is below 82 (it is about 81.5). */
  lemma RookBasePowerBound()
    ensures Pow(RookMobVal, 28) <= 82.0
  {
    var p4 := Pow(RookMobVal, 4);
    assert 0.0 < p4 <= 1.875;
    PowAdd(RookMobVal, 4, 4);
    var p8 := Pow(RookMobVal, 8);
    assert p8 == p4 * p4 <= 1.875 * 1.875;
    PowAdd(RookMobVal, 8, 8);
    var p16 := Pow(RookMobVal, 16);
    assert p16 == p8 * p8 <= 3.52 * 3.52;
    PowAdd(RookMobVal, 16, 8);
    var p24 := Pow(RookMobVal, 24);
    assert p24 == p16 * p8 <= 12.4 * 3.52;
    PowAdd(RookMobVal, 24, 4);
    assert Pow(RookMobVal, 28) == p24 * p4 <= 43.7 * 1.875;
  }

  /**
   * A base between 1 and 1.17 raised to the number of bishop moves from a
   * square is at most 82: the diagonals hold at most 28 squares.
   */
  lemma SliderPowerBound(s: GameState, i: int, c: real)
    requires 0 <= i < 64 && 1.0 <= c <= RookMobVal
    ensures 1.0 <= Pow(c, Count(BishopMoves(s, i))) <= 82.0
  {
    var n := Count(BishopMoves(s, i));
    RookBasePowerBound();
    SliderMovesCount(s, i, DirTopLeft, DirBottomRight);
    PowBaseMonotone(c, RookMobVal, n);
    PowMonotone(RookMobVal, n, 28);
  }

  /** The material of the squares below k is at most 900 per square either way. */
  lemma {:induction false} MaterialBelowBound(board: Squares, k: int)
    requires 0 <= k <= 64
    ensures -900.0 * k as real <= MaterialBelow(board, k) <= 900.0 * k as real
  {
    if k > 0 {
      MaterialBelowBound(board, k - 1);
    }
  }

  /** The space of the squares below k is at most 8 per square either way. */
  lemma {:induction false} SpaceBelowBound(board: Squares, k: int)
    requires 0 <= k <= 64
    ensures -8.0 * k as real <= SpaceBelow(board, k) <= 8.0 * k as real
  {
    if k > 0 {
      SpaceBelowBound(board, k - 1);
      SpaceSigns(board, k - 1);
    }
  }

  /** The mobility of the squares below k is at most 82 per square either way. */
  lemma {:induction false} MobilityBelowBound(s: GameState, k: int)
    requires 0 <= k <= 64
    ensures -82.0 * k as real <= MobilityBelow(s, k) <= 82.0 * k as real
  {
    if k > 0 {
      MobilityBelowBound(s, k - 1);
    }
  }
}
