/**
 * The move generator of legal_moves.h: board coordinates, edge-checked
 * stepping along a direction or a knight vector, the per-piece destination
 * sets (as 64-bit words), check detection, make_move, and the filter that
 * drops the destinations after which the mover's own king is in check.
 *
 * The generators only read the position, so they take a GameState value;
 * each loop of the source is a method proved equal to a specification
 * function, and the specification functions are what the evaluator and the
 * search are stated with.
 */
module Rules {
  import opened BitUtils
  import opened Board

  /** A value of the DIRECTIONS enum. */
  type Direction = d: int | 0 <= d < 8

  const DirTop: Direction := 0
  const DirBottom: Direction := 1
  const DirLeft: Direction := 2
  const DirRight: Direction := 3
  const DirTopLeft: Direction := 4
  const DirTopRight: Direction := 5
  const DirBottomLeft: Direction := 6
  const DirBottomRight: Direction := 7

  /** knight_translations: (dx, dy) of the eight knight jumps. */
  const KnightTranslations: seq<(int, int)> :=
    [(-1, 2), (-2, 1), (1, 2), (2, 1), (-1, -2), (-2, -1), (1, -2), (2, -1)]

  /** direction_vectors, indexed by DIRECTIONS; y grows upwards. */
  const DirectionVectors: seq<(int, int)> :=
    [(0, 1), (0, -1), (-1, 0), (1, 0), (-1, 1), (1, 1), (-1, -1), (1, -1)]

  /** pawn_move_vectors, indexed by the side to move. */
  function PawnMoveVector(t: Turn): Direction {
    if t == White then DirTop else DirBottom
  }

  /** pawn_initial_ranks, indexed by the side to move (as a y coordinate). */
  function PawnInitialRank(t: Turn): int {
    if t == White then 1 else 6
  }

  /** pawn_capture_vectors[t][i], indexed by the side and by 0 or 1. */
  function PawnCaptureVector(t: Turn, i: int): Direction
    requires 0 <= i < 2
  {
    if t == White then (if i == 0 then DirTopLeft else DirTopRight)
    else (if i == 0 then DirBottomLeft else DirBottomRight)
  }

  // ---------------------------------------------------------------------
  // Coordinates

  /** board_index_to_coord_x: the file, 0 at the left. */
  function CoordX(index: int): (x: int)
    requires 0 <= index < 64
    ensures 0 <= x < 8
  {
    index % 8
  }

  /** board_index_to_coord_y: the rank counted from the bottom, 0 for rank 1. */
  function CoordY(index: int): (y: int)
    requires 0 <= index < 64
    ensures 0 <= y < 8
  {
    (63 - index) / 8
  }

  /** coord_xy_to_board_index: the square at (x, y). */
  function CoordToIndex(x: int, y: int): (r: int)
    requires 0 <= x < 8 && 0 <= y < 8
    ensures 0 <= r < 64
  {
    (7 - y) * 8 + x
  }

  /** Splitting a square into coordinates and joining them back gives the square. */
  lemma IndexToCoordRoundTrip(index: int)
    requires 0 <= index < 64
    ensures CoordToIndex(CoordX(index), CoordY(index)) == index
  {
  }

  /** The coordinates of the square at (x, y) are x and y. */
  lemma CoordToIndexRoundTrip(x: int, y: int)
    requires 0 <= x < 8 && 0 <= y < 8
    ensures CoordX(CoordToIndex(x, y)) == x && CoordY(CoordToIndex(x, y)) == y
  {
  }

  /** The PLACES enum agrees with the coordinates: file f of rank r is (f, r - 1). */
  lemma PlacesAgreeWithCoordinates(file: int, rank: int)
    requires 0 <= file < 8 && 1 <= rank <= 8
    ensures Place(file, rank) == CoordToIndex(file, rank - 1)
    ensures CoordX(Place(file, rank)) == file && CoordY(Place(file, rank)) == rank - 1
  {
  }

  predicate OnBoard(x: int, y: int) {
    0 <= x < 8 && 0 <= y < 8
  }

  // ---------------------------------------------------------------------
  // Stepping

  /**
   * get_square_in_direction: the square n steps from `start` along
   * `direction`, or -1 when that leaves the board on either axis.
   */
  function SquareInDirection(start: int, direction: Direction, n: int): (r: int)
    requires 0 <= start < 64
    ensures r == -1 || 0 <= r < 64
  {
    var x := CoordX(start) + n * DirectionVectors[direction].0;
    var y := CoordY(start) + n * DirectionVectors[direction].1;
    if x > 7 || x < 0 || y < 0 || y > 7 then -1 else CoordToIndex(x, y)
  }

  /**
   * A step is -1 exactly when the target coordinates leave 0..7, and otherwise
   * its coordinates are the start's plus n times the vector, so a step never
   * wraps around an edge.
   */
  lemma SquareInDirectionCoordinates(start: int, direction: Direction, n: int)
    requires 0 <= start < 64
    ensures var r := SquareInDirection(start, direction, n);
            var x := CoordX(start) + n * DirectionVectors[direction].0;
            var y := CoordY(start) + n * DirectionVectors[direction].1;
            (r != -1 <==> OnBoard(x, y)) &&
            (r != -1 ==> CoordX(r) == x && CoordY(r) == y)
  {
    var x := CoordX(start) + n * DirectionVectors[direction].0;
    var y := CoordY(start) + n * DirectionVectors[direction].1;
    if OnBoard(x, y) {
      CoordToIndexRoundTrip(x, y);
    }
  }

  /** Every direction moves at least one file or rank per step, so eight steps leave the board. */
  lemma FarStepLeavesBoard(start: int, direction: Direction, n: int)
    requires 0 <= start < 64 && n >= 8
    ensures SquareInDirection(start, direction, n) == -1
  {
    SquareInDirectionCoordinates(start, direction, n);
    var x, y := CoordX(start), CoordY(start);
    var v := DirectionVectors[direction];
    assert v.0 == 1 || v.0 == -1 || v.1 == 1 || v.1 == -1;
    if v.0 == 1 {
      assert x + n * v.0 == x + n;
    } else if v.0 == -1 {
      assert x + n * v.0 == x - n;
    } else if v.1 == 1 {
      assert y + n * v.1 == y + n;
    } else {
      assert y + n * v.1 == y - n;
    }
  }

  /** A step of length n >= 1 never lands on the start square. */
  lemma StepLeavesStart(start: int, direction: Direction, n: int)
    requires 0 <= start < 64 && n >= 1
    ensures SquareInDirection(start, direction, n) != start
  {
    SquareInDirectionCoordinates(start, direction, n);
  }

  /** get_square_for_knight_vector: the square a knight jump reaches, or -1 off the board. */
  function KnightSquare(start: int, vector: int): (r: int)
    requires 0 <= start < 64 && 0 <= vector < 8
    ensures r == -1 || 0 <= r < 64
  {
    var x := CoordX(start) + KnightTranslations[vector].0;
    var y := CoordY(start) + KnightTranslations[vector].1;
    if x > 7 || x < 0 || y < 0 || y > 7 then -1 else CoordToIndex(x, y)
  }

  /** A knight jump is -1 exactly when it leaves the board, and otherwise lands at start + vector. */
  lemma KnightSquareCoordinates(start: int, vector: int)
    requires 0 <= start < 64 && 0 <= vector < 8
    ensures var r := KnightSquare(start, vector);
            var x := CoordX(start) + KnightTranslations[vector].0;
            var y := CoordY(start) + KnightTranslations[vector].1;
            (r != -1 <==> OnBoard(x, y)) &&
            (r != -1 ==> CoordX(r) == x && CoordY(r) == y)
  {
    hide CoordX, CoordY, CoordToIndex;
    var x := CoordX(start) + KnightTranslations[vector].0;
    var y := CoordY(start) + KnightTranslations[vector].1;
    if OnBoard(x, y) {
      CoordToIndexRoundTrip(x, y);
    }
  }

  /** A knight jump moves one file and two ranks or two files and one rank. */
  lemma KnightJumpShape(start: int, vector: int)
    requires 0 <= start < 64 && 0 <= vector < 8
    requires KnightSquare(start, vector) != -1
    ensures var r := KnightSquare(start, vector);
            var dx := CoordX(r) - CoordX(start);
            var dy := CoordY(r) - CoordY(start);
            ((dx == 1 || dx == -1) && (dy == 2 || dy == -2)) ||
            ((dx == 2 || dx == -2) && (dy == 1 || dy == -1))
  {
    KnightSquareCoordinates(start, vector);
  }

  // ---------------------------------------------------------------------
  // Rays

  /**
   * Whether the square p ends a ray from `index`: a piece stands on it and the
   * ray's origin holds a piece (the two are then of the same or of different
   * sides).  From a BLANK origin nothing ends a ray before the edge.
   */
  predicate Blocks(s: GameState, index: int, p: int)
    requires 0 <= index < 64 && 0 <= p < 64
  {
    SamePlayer(s.squares[p], s.squares[index]) || DifferentPlayer(s.squares[p], s.squares[index])
  }

  /** Whether a piece on `index` may go to p: p is empty or holds an enemy. */
  predicate Admits(s: GameState, index: int, p: int)
    requires 0 <= index < 64 && 0 <= p < 64
  {
    s.squares[p] == Blank || DifferentPlayer(s.squares[p], s.squares[index])
  }

  /** The first n - 1 steps along `direction` stay on the board and none of them ends the ray. */
  predicate ClearBefore(s: GameState, index: int, direction: Direction, n: int)
    requires 0 <= index < 64
  {
    forall m :: 1 <= m < n ==>
      SquareInDirection(index, direction, m) != -1 &&
      !Blocks(s, index, SquareInDirection(index, direction, m))
  }

  /**
   * q is reachable along `direction` from `index`: it is the n-th square
   * along it, every square before it is passable, and q is empty or holds an
   * enemy.
   */
  predicate InRay(s: GameState, index: int, direction: Direction, q: int)
    requires 0 <= index < 64
  {
    exists n :: 1 <= n < 8 && SquareInDirection(index, direction, n) == q && q != -1 &&
      ClearBefore(s, index, direction, n) && Admits(s, index, q)
  }

  /** The squares reachable along one direction. */
  function RayMoves(s: GameState, index: int, direction: Direction): (r: Bitboard)
    requires 0 <= index < 64
    ensures forall q :: 0 <= q < 64 ==> (r[q] <==> InRay(s, index, direction, q))
  {
    seq(64, q requires 0 <= q < 64 => InRay(s, index, direction, q))
  }

  /** ret holds exactly the ray's squares among the first n - 1 steps. */
  predicate RayPrefix(s: GameState, index: int, direction: Direction, n: int, ret: Bitboard)
    requires 0 <= index < 64
  {
    forall q :: 0 <= q < 64 ==>
      (ret[q] <==> exists m :: 1 <= m < n && SquareInDirection(index, direction, m) == q &&
                               ClearBefore(s, index, direction, m) && Admits(s, index, q))
  }

  /**
   * fill_legal_squares_in_direction: walks outwards from `index`, adding empty
   * squares, stopping at the edge or at a piece of the mover's side, and
   * adding an enemy square before stopping.
   */
  method FillLegalSquaresInDirection(s: GameState, direction: Direction, index: int) returns (ret: Bitboard)
    requires 0 <= index < 64
    ensures ret == RayMoves(s, index, direction)
  {
    ret := Zero();
    var n := 1;
    while true
      invariant 1 <= n <= 8
      invariant ClearBefore(s, index, direction, n)
      invariant RayPrefix(s, index, direction, n, ret)
      decreases 8 - n
    {
      var position := SquareInDirection(index, direction, n);
      if n == 8 {
        FarStepLeavesBoard(index, direction, n);
      }
      n := n + 1;
      if position == -1 {
        break;
      } else if SamePlayer(s.squares[position], s.squares[index]) {
        break;
      } else if s.squares[position] == Blank {
        ret := SetNthBitTo(ret, position, 1);
      } else if DifferentPlayer(s.squares[position], s.squares[index]) {
        ret := SetNthBitTo(ret, position, 1);
        break;
      }
    }
  }

  /** Two different step counts along one direction never reach the same square. */
  lemma StepsAreDistinct(start: int, direction: Direction, a: int, b: int)
    requires 0 <= start < 64
    requires SquareInDirection(start, direction, a) != -1
    requires SquareInDirection(start, direction, a) == SquareInDirection(start, direction, b)
    ensures a == b
  {
    SquareInDirectionCoordinates(start, direction, a);
    SquareInDirectionCoordinates(start, direction, b);
    var v := DirectionVectors[direction];
    assert (a - b) * v.0 == 0 && (a - b) * v.1 == 0;
    assert v.0 != 0 || v.1 != 0;
  }

  /** The walk from a piece reaches every empty square before the first occupied one. */
  lemma RayCoversEmptySquares(s: GameState, index: int, direction: Direction, n: int)
    requires 0 <= index < 64 && 1 <= n
    requires ClearBefore(s, index, direction, n)
    requires SquareInDirection(index, direction, n) != -1
    requires s.squares[SquareInDirection(index, direction, n)] == Blank
    ensures InRay(s, index, direction, SquareInDirection(index, direction, n))
  {
    if n >= 8 {
      FarStepLeavesBoard(index, direction, n);
    }
  }

  /**
   * From a piece, nothing beyond the first occupied square is reachable, and
   * that square is reachable only when it holds an enemy.
   */
  lemma RayStopsAtFirstPiece(s: GameState, index: int, direction: Direction, m: int, n: int)
    requires 0 <= index < 64 && s.squares[index] != Blank
    requires 1 <= m <= n
    requires SquareInDirection(index, direction, m) != -1
    requires s.squares[SquareInDirection(index, direction, m)] != Blank
    requires SquareInDirection(index, direction, n) != -1
    ensures InRay(s, index, direction, SquareInDirection(index, direction, n)) ==>
              n == m && DifferentPlayer(s.squares[SquareInDirection(index, direction, m)], s.squares[index])
  {
    var q := SquareInDirection(index, direction, n);
    if InRay(s, index, direction, q) {
      var k :| 1 <= k < 8 && SquareInDirection(index, direction, k) == q && q != -1 &&
        ClearBefore(s, index, direction, k) && Admits(s, index, q);
      StepsAreDistinct(index, direction, k, n);
      assert !(m < k);
    }
  }

  /** No square of the ray holds a piece of the mover's own side. */
  lemma RayNeverFriendly(s: GameState, index: int, direction: Direction, q: int)
    requires 0 <= index < 64 && 0 <= q < 64
    requires InRay(s, index, direction, q)
    ensures !SamePlayer(s.squares[q], s.squares[index])
  {
  }

  // ---------------------------------------------------------------------
  // Sliding pieces

  /** The union of the rays along directions lo..hi. */
  function SliderMoves(s: GameState, index: int, lo: int, hi: int): (r: Bitboard)
    requires 0 <= index < 64 && 0 <= lo && lo - 1 <= hi < 8
    ensures forall q :: 0 <= q < 64 ==>
              (r[q] <==> exists d: int :: lo <= d <= hi && InRay(s, index, d, q))
    decreases hi - lo
  {
    if hi < lo then Zero()
    else Or(RayMoves(s, index, hi), SliderMoves(s, index, lo, hi - 1))
  }

  /** The squares 1..n steps along a direction that are on the board. */
  function StepSquares(index: int, direction: Direction, n: int): (r: Bitboard)
    requires 0 <= index < 64 && 0 <= n < 8
    ensures forall q :: 0 <= q < 64 ==>
              (r[q] <==> exists m :: 1 <= m <= n && SquareInDirection(index, direction, m) == q)
    ensures Count(r) <= n
  {
    if n == 0 then
      CountBelowZero(Zero(), 64);
      Zero()
    else
      var p := SquareInDirection(index, direction, n);
      var rest := StepSquares(index, direction, n - 1);
      if p == -1 then rest
      else
        CountSetBit(rest, p);
        rest[p := true]
  }

  /** A ray holds at most seven squares. */
  lemma RayMovesCount(s: GameState, index: int, direction: Direction)
    requires 0 <= index < 64
    ensures Count(RayMoves(s, index, direction)) <= 7
  {
    var steps := StepSquares(index, direction, 7);
    forall q | 0 <= q < 64 && RayMoves(s, index, direction)[q]
      ensures steps[q]
    {
      var n :| 1 <= n < 8 && SquareInDirection(index, direction, n) == q && q != -1 &&
        ClearBefore(s, index, direction, n) && Admits(s, index, q);
    }
    CountBelowSubset(RayMoves(s, index, direction), steps, 64);
  }

  /** The rays along directions lo..hi hold at most seven squares each. */
  lemma {:induction false} SliderMovesCount(s: GameState, index: int, lo: int, hi: int)
    requires 0 <= index < 64 && 0 <= lo && lo - 1 <= hi < 8
    ensures Count(SliderMoves(s, index, lo, hi)) <= 7 * (hi - lo + 1)
    decreases hi - lo
  {
    if hi < lo {
      CountBelowZero(Zero(), 64);
    } else {
      RayMovesCount(s, index, hi);
      SliderMovesCount(s, index, lo, hi - 1);
      CountBelowOr(RayMoves(s, index, hi), SliderMoves(s, index, lo, hi - 1), 64);
    }
  }

  /** A queen slides along all eight directions. */
  function QueenMoves(s: GameState, index: int): (r: Bitboard)
    requires 0 <= index < 64
    ensures forall q :: 0 <= q < 64 ==> (r[q] <==> exists d: int :: 0 <= d < 8 && InRay(s, index, d, q))
  {
    SliderMoves(s, index, DirTop, DirBottomRight)
  }

  /** A bishop slides along the four diagonals, DIR_TOP_LEFT..DIR_BOTTOM_RIGHT. */
  function BishopMoves(s: GameState, index: int): (r: Bitboard)
    requires 0 <= index < 64
    ensures forall q :: 0 <= q < 64 ==>
              (r[q] <==> exists d: int :: DirTopLeft <= d <= DirBottomRight && InRay(s, index, d, q))
  {
    SliderMoves(s, index, DirTopLeft, DirBottomRight)
  }

  /** A rook slides along the four lines, DIR_TOP..DIR_RIGHT. */
  function RookMoves(s: GameState, index: int): (r: Bitboard)
    requires 0 <= index < 64
    ensures forall q :: 0 <= q < 64 ==> (r[q] <==> exists d: int :: DirTop <= d <= DirRight && InRay(s, index, d, q))
  {
    SliderMoves(s, index, DirTop, DirRight)
  }

  /** legal_move_queen: the or of the rays in every direction. */
  method LegalMoveQueen(s: GameState, index: int) returns (possibleMoves: Bitboard)
    requires 0 <= index < 64
    ensures possibleMoves == QueenMoves(s, index)
  {
    possibleMoves := Zero();
    for dir: int := DirTop to DirBottomRight + 1
      invariant possibleMoves == SliderMoves(s, index, DirTop, dir - 1)
    {
      var ret := FillLegalSquaresInDirection(s, dir, index);
      possibleMoves := Or(ret, possibleMoves);
    }
  }

  /** legal_move_bishop: the or of the diagonal rays. */
  method LegalMoveBishop(s: GameState, index: int) returns (possibleMoves: Bitboard)
    requires 0 <= index < 64
    ensures possibleMoves == BishopMoves(s, index)
  {
    possibleMoves := Zero();
    for dir: int := DirTopLeft to DirBottomRight + 1
      invariant possibleMoves == SliderMoves(s, index, DirTopLeft, dir - 1)
    {
      var ret := FillLegalSquaresInDirection(s, dir, index);
      possibleMoves := Or(ret, possibleMoves);
    }
  }

  /** legal_move_rook: the or of the horizontal and vertical rays. */
  method LegalMoveRook(s: GameState, index: int) returns (possibleMoves: Bitboard)
    requires 0 <= index < 64
    ensures possibleMoves == RookMoves(s, index)
  {
    possibleMoves := Zero();
    for dir: int := DirTop to DirRight + 1
      invariant possibleMoves == SliderMoves(s, index, DirTop, dir - 1)
    {
      var ret := FillLegalSquaresInDirection(s, dir, index);
      possibleMoves := Or(ret, possibleMoves);
    }
  }

  /** A queen reaches exactly what a rook and a bishop on its square reach together. */
  lemma QueenIsRookOrBishop(s: GameState, index: int)
    requires 0 <= index < 64
    ensures QueenMoves(s, index) == Or(RookMoves(s, index), BishopMoves(s, index))
  {
    var queen, both := QueenMoves(s, index), Or(RookMoves(s, index), BishopMoves(s, index));
    forall q | 0 <= q < 64
      ensures queen[q] == both[q]
    {
      if queen[q] {
        var d :| 0 <= d <= 7 && InRay(s, index, d, q);
        if d <= 3 {
          assert RookMoves(s, index)[q];
        } else {
          assert BishopMoves(s, index)[q];
        }
      }
    }
  }

  // ---------------------------------------------------------------------
  // Knight and king

  /** The squares the first k knight jumps reach and admit. */
  function KnightMovesBelow(s: GameState, index: int, k: int): (r: Bitboard)
    requires 0 <= index < 64 && 0 <= k <= 8
    ensures forall q :: 0 <= q < 64 ==>
              (r[q] <==> exists v :: 0 <= v < k && KnightSquare(index, v) == q && Admits(s, index, q))
  {
    if k == 0 then Zero()
    else if KnightSquare(index, k - 1) != -1 && Admits(s, index, KnightSquare(index, k - 1)) then
      KnightMovesBelow(s, index, k - 1)[KnightSquare(index, k - 1) := true]
    else KnightMovesBelow(s, index, k - 1)
  }

  /** Every on-board knight jump onto an empty or enemy square. */
  function KnightMoves(s: GameState, index: int): (r: Bitboard)
    requires 0 <= index < 64
    ensures forall q :: 0 <= q < 64 ==>
              (r[q] <==> exists v :: 0 <= v < 8 && KnightSquare(index, v) == q && Admits(s, index, q))
  {
    KnightMovesBelow(s, index, 8)
  }

  /** legal_move_knight */
  method LegalMoveKnight(s: GameState, index: int) returns (possibleMoves: Bitboard)
    requires 0 <= index < 64
    ensures possibleMoves == KnightMoves(s, index)
  {
    possibleMoves := Zero();
    var position: int;
    for knightVector := 0 to 8
      invariant possibleMoves == KnightMovesBelow(s, index, knightVector)
    {
      position := KnightSquare(index, knightVector);
      if position == -1 {
        continue;
      }
      if SamePlayer(s.squares[position], s.squares[index]) {
        continue;
      }
      if s.squares[position] == Blank {
        OrWithSetBit(possibleMoves, position);
        possibleMoves := Or(possibleMoves, SetNthBitTo(possibleMoves, position, 1));
      }
      if DifferentPlayer(s.squares[position], s.squares[index]) {
        OrWithSetBit(possibleMoves, position);
        possibleMoves := Or(possibleMoves, SetNthBitTo(possibleMoves, position, 1));
      }
    }
  }

  /** The squares one step along the first k directions that admit the king. */
  function KingMovesBelow(s: GameState, index: int, k: int): (r: Bitboard)
    requires 0 <= index < 64 && 0 <= k <= 8
    ensures forall q :: 0 <= q < 64 ==>
              (r[q] <==> exists d: int :: 0 <= d < k && SquareInDirection(index, d, 1) == q && Admits(s, index, q))
  {
    if k == 0 then Zero()
    else if SquareInDirection(index, k - 1, 1) != -1 && Admits(s, index, SquareInDirection(index, k - 1, 1)) then
      KingMovesBelow(s, index, k - 1)[SquareInDirection(index, k - 1, 1) := true]
    else KingMovesBelow(s, index, k - 1)
  }

  /** Every adjacent on-board square that is empty or holds an enemy. */
  function KingMoves(s: GameState, index: int): (r: Bitboard)
    requires 0 <= index < 64
    ensures forall q :: 0 <= q < 64 ==>
              (r[q] <==> exists d: int :: 0 <= d < 8 && SquareInDirection(index, d, 1) == q && Admits(s, index, q))
  {
    KingMovesBelow(s, index, 8)
  }

  /** legal_move_king */
  method LegalMoveKing(s: GameState, index: int) returns (possibleMoves: Bitboard)
    requires 0 <= index < 64
    ensures possibleMoves == KingMoves(s, index)
  {
    possibleMoves := Zero();
    var position: int;
    for dir := 0 to 8
      invariant possibleMoves == KingMovesBelow(s, index, dir)
    {
      position := SquareInDirection(index, dir, 1);
      if position == -1 {
        continue;
      }
      if SamePlayer(s.squares[index], s.squares[position]) {
        continue;
      }
      if s.squares[position] == Blank {
        OrWithSetBit(possibleMoves, position);
        possibleMoves := Or(possibleMoves, SetNthBitTo(possibleMoves, position, 1));
      } else if DifferentPlayer(s.squares[index], s.squares[position]) {
        OrWithSetBit(possibleMoves, position);
        possibleMoves := Or(possibleMoves, SetNthBitTo(possibleMoves, position, 1));
      }
    }
  }

  /** A king move goes to an adjacent square: at most one file and one rank away. */
  lemma KingMovesAreAdjacent(s: GameState, index: int, q: int)
    requires 0 <= index < 64 && 0 <= q < 64 && KingMoves(s, index)[q]
    ensures -1 <= CoordX(q) - CoordX(index) <= 1 && -1 <= CoordY(q) - CoordY(index) <= 1
    ensures q != index
  {
    var d :| 0 <= d < 8 && SquareInDirection(index, d, 1) == q && Admits(s, index, q);
    SquareInDirectionCoordinates(index, d, 1);
    StepLeavesStart(index, d, 1);
  }

  /** A knight move goes to a square a knight jump away. */
  lemma KnightMovesAreJumps(s: GameState, index: int, q: int)
    requires 0 <= index < 64 && 0 <= q < 64 && KnightMoves(s, index)[q]
    ensures var dx := CoordX(q) - CoordX(index);
            var dy := CoordY(q) - CoordY(index);
            ((dx == 1 || dx == -1) && (dy == 2 || dy == -2)) ||
            ((dx == 2 || dx == -2) && (dy == 1 || dy == -1))
  {
    var v :| 0 <= v < 8 && KnightSquare(index, v) == q && Admits(s, index, q);
    KnightJumpShape(index, v);
  }

  // ---------------------------------------------------------------------
  // Pawns (the direction follows the side to move, not the pawn's colour)

  /** The single push: one step forward for the side to move, onto an empty square. */
  predicate PawnPush(s: GameState, index: int, q: int)
    requires 0 <= index < 64
  {
    q == SquareInDirection(index, PawnMoveVector(s.turn), 1) && q != -1 && s.squares[q] == Blank
  }

  /**
   * The double push: two steps forward from the side's initial pawn rank,
   * with both squares empty.
   */
  predicate PawnDoublePush(s: GameState, index: int, q: int)
    requires 0 <= index < 64
  {
    PawnPush(s, index, SquareInDirection(index, PawnMoveVector(s.turn), 1)) &&
    q == SquareInDirection(index, PawnMoveVector(s.turn), 2) && q != -1 && s.squares[q] == Blank &&
    CoordY(index) == PawnInitialRank(s.turn)
  }

  /** A capture along one of the side's first k capture diagonals, onto an enemy piece. */
  predicate PawnCaptureBelow(s: GameState, index: int, k: int, q: int)
    requires 0 <= index < 64 && 0 <= k <= 2
  {
    exists i :: 0 <= i < k && q == SquareInDirection(index, PawnCaptureVector(s.turn, i), 1) &&
      q != -1 && s.squares[q] != Blank && DifferentPlayer(s.squares[q], s.squares[index])
  }

  /** Every pawn move: single push, double push, diagonal capture. */
  function PawnMoves(s: GameState, index: int): (r: Bitboard)
    requires 0 <= index < 64
    ensures forall q :: 0 <= q < 64 ==>
              (r[q] <==> PawnPush(s, index, q) || PawnDoublePush(s, index, q) || PawnCaptureBelow(s, index, 2, q))
  {
    seq(64, q => PawnPush(s, index, q) || PawnDoublePush(s, index, q) || PawnCaptureBelow(s, index, 2, q))
  }

  /** legal_move_pawn */
  method LegalMovePawn(s: GameState, index: int) returns (possibleMoves: Bitboard)
    requires 0 <= index < 64
    ensures possibleMoves == PawnMoves(s, index)
  {
    possibleMoves := Zero();
    var position: int;
    position := SquareInDirection(index, PawnMoveVector(s.turn), 1);
    if position != -1 {
      if s.squares[position] == Blank {
        OrWithSetBit(possibleMoves, position);
        possibleMoves := Or(possibleMoves, SetNthBitTo(possibleMoves, position, 1));
        position := SquareInDirection(index, PawnMoveVector(s.turn), 2);
        if position != -1 {
          if s.squares[position] == Blank && CoordY(index) == PawnInitialRank(s.turn) {
            OrWithSetBit(possibleMoves, position);
            possibleMoves := Or(possibleMoves, SetNthBitTo(possibleMoves, position, 1));
          }
        }
      }
    }
    assert forall q :: 0 <= q < 64 ==>
      (possibleMoves[q] <==> PawnPush(s, index, q) || PawnDoublePush(s, index, q));
    for direction := 0 to 2
      invariant forall q :: 0 <= q < 64 ==>
        (possibleMoves[q] <==> PawnPush(s, index, q) || PawnDoublePush(s, index, q) ||
                               PawnCaptureBelow(s, index, direction, q))
    {
      position := SquareInDirection(index, PawnCaptureVector(s.turn, direction), 1);
      if position == -1 {
        continue;
      }
      if s.squares[position] == Blank {
        continue;
      }
      if DifferentPlayer(s.squares[position], s.squares[index]) {
        OrWithSetBit(possibleMoves, position);
        possibleMoves := Or(possibleMoves, SetNthBitTo(possibleMoves, position, 1));
      }
    }
  }

  // ---------------------------------------------------------------------
  // All destinations of a piece

  /**
   * The destinations of the piece on `index` by kind, as the switch of
   * legal_moves: none for BLANK, and otherwise only squares that are empty or
   * hold an enemy, so never the piece's own square nor a piece of its side.
   */
  function PseudoMoves(s: GameState, index: int): (r: Bitboard)
    requires 0 <= index < 64
    ensures s.squares[index] == Blank ==> r == Zero()
    ensures forall q :: 0 <= q < 64 && r[q] ==>
              Admits(s, index, q) && q != index && !SamePlayer(s.squares[q], s.squares[index])
  {
    var p := s.squares[index];
    if IsRook(p) then RookMoves(s, index)
    else if IsKnight(p) then KnightMoves(s, index)
    else if IsBishop(p) then BishopMoves(s, index)
    else if IsKing(p) then KingMoves(s, index)
    else if IsQueen(p) then QueenMoves(s, index)
    else if IsPawn(p) then PawnMoves(s, index)
    else Zero()
  }

  // ---------------------------------------------------------------------
  // Check detection

  /**
   * The number of steps from `index` along `direction`, starting at step n,
   * to the first square that is off the board or occupied.
   */
  function EndDistance(s: GameState, index: int, direction: Direction, n: int): (m: int)
    requires 0 <= index < 64 && 1 <= n <= 8
    ensures n <= m <= 8
    ensures SquareInDirection(index, direction, m) == -1 ||
            s.squares[SquareInDirection(index, direction, m)] != Blank
    ensures forall k :: n <= k < m ==>
              SquareInDirection(index, direction, k) != -1 &&
              s.squares[SquareInDirection(index, direction, k)] == Blank
    decreases 8 - n
  {
    var p := SquareInDirection(index, direction, n);
    if p == -1 || s.squares[p] != Blank then n
    else
      assert n < 8 by {
        if n == 8 {
          FarStepLeavesBoard(index, direction, n);
        }
      }
      EndDistance(s, index, direction, n + 1)
  }

  /** The first occupied square along `direction` from `index`, or -1 if the edge comes first. */
  function EndOfDirection(s: GameState, index: int, direction: Direction): (r: int)
    requires 0 <= index < 64
    ensures r == -1 || (0 <= r < 64 && s.squares[r] != Blank)
  {
    SquareInDirection(index, direction, EndDistance(s, index, direction, 1))
  }

  /** get_square_at_end_of_direction */
  method GetSquareAtEndOfDirection(s: GameState, direction: Direction, index: int) returns (ret: int)
    requires 0 <= index < 64
    ensures ret == EndOfDirection(s, index, direction)
  {
    var n := 1;
    while true
      invariant 1 <= n <= 8
      invariant EndDistance(s, index, direction, n) == EndDistance(s, index, direction, 1)
      decreases 8 - n
    {
      ret := SquareInDirection(index, direction, n);
      if ret == -1 {
        break;
      }
      if s.squares[ret] != Blank {
        break;
      }
      if n == 8 {
        FarStepLeavesBoard(index, direction, n);
      }
      n := n + 1;
    }
  }

  /** The piece on q is an enemy of the piece on the king's square. */
  predicate Enemy(s: GameState, king: int, q: int)
    requires 0 <= king < 64 && 0 <= q < 64 && s.squares[king] != Blank
  {
    s.squares[q] != Blank && PlayerOf(s.squares[q]) != PlayerOf(s.squares[king])
  }

  /**
   * The first piece along direction d from the king is an enemy rook or
   * queen (d in DIR_TOP..DIR_RIGHT) or an enemy bishop or queen (the diagonals).
   */
  predicate LineCheck(s: GameState, king: int, d: Direction)
    requires 0 <= king < 64 && s.squares[king] != Blank
  {
    var q := EndOfDirection(s, king, d);
    q != -1 && Enemy(s, king, q) &&
    (if d <= DirRight then IsRook(s.squares[q]) || IsQueen(s.squares[q])
     else IsBishop(s.squares[q]) || IsQueen(s.squares[q]))
  }

  /** An enemy knight stands one knight jump (vector v) from the king. */
  predicate KnightCheck(s: GameState, king: int, v: int)
    requires 0 <= king < 64 && s.squares[king] != Blank && 0 <= v < 8
  {
    var q := KnightSquare(king, v);
    q != -1 && Enemy(s, king, q) && IsKnight(s.squares[q])
  }

  /** An enemy pawn stands on the king side's capture diagonal i. */
  predicate PawnCheck(s: GameState, king: int, i: int)
    requires 0 <= king < 64 && s.squares[king] != Blank && 0 <= i < 2
  {
    var q := SquareInDirection(king, PawnCaptureVector(PlayerOf(s.squares[king]), i), 1);
    q != -1 && Enemy(s, king, q) && IsPawn(s.squares[q])
  }

  /** q is the first piece along one of the first n directions and checks the king from there. */
  predicate LineCheckerBelow(s: GameState, king: int, n: int, q: int)
    requires 0 <= king < 64 && s.squares[king] != Blank && 0 <= n <= 8
  {
    exists d :: 0 <= d < n && LineCheck(s, king, d) && EndOfDirection(s, king, d) == q
  }

  /** q is one of the first n knight jumps from the king and holds a checking knight. */
  predicate KnightCheckerBelow(s: GameState, king: int, n: int, q: int)
    requires 0 <= king < 64 && s.squares[king] != Blank && 0 <= n <= 8
  {
    exists v :: 0 <= v < n && KnightCheck(s, king, v) && KnightSquare(king, v) == q
  }

  /** q is on one of the first n capture diagonals of the king's side and holds a checking pawn. */
  predicate PawnCheckerBelow(s: GameState, king: int, n: int, q: int)
    requires 0 <= king < 64 && s.squares[king] != Blank && 0 <= n <= 2
  {
    exists i :: 0 <= i < n && PawnCheck(s, king, i) &&
      SquareInDirection(king, PawnCaptureVector(PlayerOf(s.squares[king]), i), 1) == q
  }

  /**
   * The square of a checking piece: the enemy piece on q attacks the king
   * along its own kind of line (the enemy king is never counted).
   */
  predicate ChecksKing(s: GameState, king: int, q: int)
    requires 0 <= king < 64 && s.squares[king] != Blank
  {
    LineCheckerBelow(s, king, 8, q) || KnightCheckerBelow(s, king, 8, q) || PawnCheckerBelow(s, king, 2, q)
  }

  /** The squares of all checking pieces. */
  function Checkers(s: GameState, king: int): (r: Bitboard)
    requires 0 <= king < 64 && s.squares[king] != Blank
    ensures forall q :: 0 <= q < 64 ==> (r[q] <==> ChecksKing(s, king, q))
  {
    seq(64, q => ChecksKing(s, king, q))
  }

  /**
   * The king on `king` is attacked along a line, by a knight or by a pawn:
   * exactly when which_pieces_check_king finds a checking piece.
   */
  predicate InCheck(s: GameState, king: int)
    requires 0 <= king < 64 && s.squares[king] != Blank
    ensures InCheck(s, king) <==> Checkers(s, king) != Zero()
  {
    AttackedIffCheckers(s, king);
    (exists d :: 0 <= d < 8 && LineCheck(s, king, d)) ||
    (exists v :: 0 <= v < 8 && KnightCheck(s, king, v)) ||
    (exists i :: 0 <= i < 2 && PawnCheck(s, king, i))
  }

  /** The first loop of is_king_in_check: an enemy rook or queen at the end of a straight line. */
  method StraightLineAttack(s: GameState, kingIndex: int) returns (found: bool)
    requires 0 <= kingIndex < 64 && s.squares[kingIndex] != Blank
    ensures found <==> exists d :: DirTop <= d <= DirRight && LineCheck(s, kingIndex, d)
  {
    var player := PlayerOf(s.squares[kingIndex]);
    var nearestPieceInDirection, idx;
    for dir := DirTop to DirRight + 1
      invariant forall d :: 0 <= d < dir ==> !LineCheck(s, kingIndex, d)
    {
      idx := GetSquareAtEndOfDirection(s, dir, kingIndex);
      if idx == -1 {
        continue;
      }
      nearestPieceInDirection := s.squares[idx];
      if nearestPieceInDirection == Blank {
        continue;
      }
      if PlayerOf(nearestPieceInDirection) == player {
        continue;
      }
      if IsQueen(nearestPieceInDirection) || IsRook(nearestPieceInDirection) {
        assert LineCheck(s, kingIndex, dir);
        return true;
      }
    }
    return false;
  }

  /** The second loop of is_king_in_check: an enemy bishop or queen at the end of a diagonal. */
  method DiagonalLineAttack(s: GameState, kingIndex: int) returns (found: bool)
    requires 0 <= kingIndex < 64 && s.squares[kingIndex] != Blank
    ensures found <==> exists d :: DirTopLeft <= d <= DirBottomRight && LineCheck(s, kingIndex, d)
  {
    var player := PlayerOf(s.squares[kingIndex]);
    var nearestPieceInDirection, idx;
    for dir := DirTopLeft to DirBottomRight + 1
      invariant forall d :: DirTopLeft <= d < dir ==> !LineCheck(s, kingIndex, d)
    {
      idx := GetSquareAtEndOfDirection(s, dir, kingIndex);
      if idx == -1 {
        continue;
      }
      nearestPieceInDirection := s.squares[idx];
      if nearestPieceInDirection == Blank {
        continue;
      }
      if PlayerOf(nearestPieceInDirection) == player {
        continue;
      }
      if IsQueen(nearestPieceInDirection) || IsBishop(nearestPieceInDirection) {
        assert LineCheck(s, kingIndex, dir);
        return true;
      }
    }
    return false;
  }

  /** The third loop of is_king_in_check: an enemy knight one jump away. */
  method KnightAttack(s: GameState, kingIndex: int) returns (found: bool)
    requires 0 <= kingIndex < 64 && s.squares[kingIndex] != Blank
    ensures found <==> exists v :: 0 <= v < 8 && KnightCheck(s, kingIndex, v)
  {
    var player := PlayerOf(s.squares[kingIndex]);
    var nearestPieceInDirection, idx;
    for vec := 0 to 8
      invariant forall v :: 0 <= v < vec ==> !KnightCheck(s, kingIndex, v)
    {
      idx := KnightSquare(kingIndex, vec);
      if idx == -1 {
        continue;
      }
      nearestPieceInDirection := s.squares[idx];
      if nearestPieceInDirection == Blank {
        continue;
      }
      if PlayerOf(nearestPieceInDirection) == player {
        continue;
      }
      if IsKnight(nearestPieceInDirection) {
        assert KnightCheck(s, kingIndex, vec);
        return true;
      }
    }
    return false;
  }

  /** The last loop of is_king_in_check: an enemy pawn on one of the two capture diagonals. */
  method PawnAttack(s: GameState, kingIndex: int) returns (found: bool)
    requires 0 <= kingIndex < 64 && s.squares[kingIndex] != Blank
    ensures found <==> exists i :: 0 <= i < 2 && PawnCheck(s, kingIndex, i)
  {
    var player := PlayerOf(s.squares[kingIndex]);
    var nearestPieceInDirection, idx;
    for i := 0 to 2
      invariant forall j :: 0 <= j < i ==> !PawnCheck(s, kingIndex, j)
    {
      idx := SquareInDirection(kingIndex, PawnCaptureVector(player, i), 1);
      if idx == -1 {
        continue;
      }
      nearestPieceInDirection := s.squares[idx];
      if nearestPieceInDirection == Blank {
        continue;
      }
      if PlayerOf(nearestPieceInDirection) == player {
        continue;
      }
      if IsPawn(nearestPieceInDirection) {
        assert PawnCheck(s, kingIndex, i);
        return true;
      }
    }
    return false;
  }

  /**
   * is_king_in_check: returns 1 as soon as one attack is found, 0 otherwise.
   * Its four scans (straight lines, diagonals, knight jumps, pawn captures)
   * are the four methods above, run in the same order.
   */
  method IsKingInCheck(s: GameState, kingIndex: int) returns (r: int)
    requires 0 <= kingIndex < 64 && s.squares[kingIndex] != Blank
    ensures r == 0 || r == 1
    ensures r == 1 <==> InCheck(s, kingIndex)
  {
    var found := StraightLineAttack(s, kingIndex);
    if !found {
      found := DiagonalLineAttack(s, kingIndex);
    }
    if !found {
      found := KnightAttack(s, kingIndex);
    }
    if !found {
      found := PawnAttack(s, kingIndex);
    }
    if found {
      AttackIsCheck(s, kingIndex);
      return 1;
    }
    NoAttackNoCheck(s, kingIndex);
    return 0;
  }

  /** Any single attack puts the king in check. */
  lemma AttackIsCheck(s: GameState, king: int)
    requires 0 <= king < 64 && s.squares[king] != Blank
    ensures forall d :: 0 <= d < 8 && LineCheck(s, king, d) ==> InCheck(s, king)
    ensures forall v :: 0 <= v < 8 && KnightCheck(s, king, v) ==> InCheck(s, king)
    ensures forall i :: 0 <= i < 2 && PawnCheck(s, king, i) ==> InCheck(s, king)
  {
  }

  /** Without an attack of any of the four kinds the king is not in check. */
  lemma NoAttackNoCheck(s: GameState, king: int)
    requires 0 <= king < 64 && s.squares[king] != Blank
    requires forall d :: 0 <= d < 8 ==> !LineCheck(s, king, d)
    requires forall v :: 0 <= v < 8 ==> !KnightCheck(s, king, v)
    requires forall i :: 0 <= i < 2 ==> !PawnCheck(s, king, i)
    ensures !InCheck(s, king)
  {
  }

  /**
   * which_pieces_check_king: the squares of the pieces that check the king,
   * found by the same four scans as is_king_in_check.  Each round either
   * skips the square or or-s it into the result; the skip tests are nested
   * here where the source uses `continue`.
   */
  method WhichPiecesCheckKing(s: GameState, kingIndex: int) returns (ret: Bitboard)
    requires 0 <= kingIndex < 64 && s.squares[kingIndex] != Blank
    ensures ret == Checkers(s, kingIndex)
  {
    var player := PlayerOf(s.squares[kingIndex]);
    var nearestPieceInDirection, idx;
    ret := Zero();
    for dir := DirTop to DirRight + 1
      invariant forall q :: 0 <= q < 64 ==> (ret[q] <==> LineCheckerBelow(s, kingIndex, dir, q))
    {
      var before := ret;
      idx := GetSquareAtEndOfDirection(s, dir, kingIndex);
      if idx != -1 {
        nearestPieceInDirection := s.squares[idx];
        if nearestPieceInDirection != Blank && PlayerOf(nearestPieceInDirection) != player &&
           (IsQueen(nearestPieceInDirection) || IsRook(nearestPieceInDirection)) {
          OrWithSetBit(ret, idx);
          ret := Or(ret, SetNthBitTo(ret, idx, 1));
        }
      }
      LineScanStep(s, kingIndex, dir, before, ret);
    }
    for dir := DirTopLeft to DirBottomRight + 1
      invariant forall q :: 0 <= q < 64 ==> (ret[q] <==> LineCheckerBelow(s, kingIndex, dir, q))
    {
      var before := ret;
      idx := GetSquareAtEndOfDirection(s, dir, kingIndex);
      if idx != -1 {
        nearestPieceInDirection := s.squares[idx];
        if nearestPieceInDirection != Blank && PlayerOf(nearestPieceInDirection) != player &&
           (IsQueen(nearestPieceInDirection) || IsBishop(nearestPieceInDirection)) {
          OrWithSetBit(ret, idx);
          ret := Or(ret, SetNthBitTo(ret, idx, 1));
        }
      }
      LineScanStep(s, kingIndex, dir, before, ret);
    }
    for vec := 0 to 8
      invariant forall q :: 0 <= q < 64 ==>
        (ret[q] <==> LineCheckerBelow(s, kingIndex, 8, q) || KnightCheckerBelow(s, kingIndex, vec, q))
    {
      var before := ret;
      idx := KnightSquare(kingIndex, vec);
      if idx != -1 {
        nearestPieceInDirection := s.squares[idx];
        if nearestPieceInDirection != Blank && PlayerOf(nearestPieceInDirection) != player &&
           IsKnight(nearestPieceInDirection) {
          OrWithSetBit(ret, idx);
          ret := Or(ret, SetNthBitTo(ret, idx, 1));
        }
      }
      KnightScanStep(s, kingIndex, vec, before, ret);
    }
    for i := 0 to 2
      invariant forall q :: 0 <= q < 64 ==>
        (ret[q] <==> LineCheckerBelow(s, kingIndex, 8, q) || KnightCheckerBelow(s, kingIndex, 8, q) ||
                     PawnCheckerBelow(s, kingIndex, i, q))
    {
      var before := ret;
      idx := SquareInDirection(kingIndex, PawnCaptureVector(player, i), 1);
      if idx != -1 {
        nearestPieceInDirection := s.squares[idx];
        if nearestPieceInDirection != Blank && PlayerOf(nearestPieceInDirection) != player &&
           IsPawn(nearestPieceInDirection) {
          OrWithSetBit(ret, idx);
          ret := Or(ret, SetNthBitTo(ret, idx, 1));
        }
      }
      PawnScanStep(s, kingIndex, i, before, ret);
    }
  }

  /** One round of the line scans: direction dir is added to the set of scanned directions. */
  lemma LineScanStep(s: GameState, king: int, dir: int, before: Bitboard, after: Bitboard)
    requires 0 <= king < 64 && s.squares[king] != Blank && 0 <= dir < 8
    requires forall q :: 0 <= q < 64 ==> (before[q] <==> LineCheckerBelow(s, king, dir, q))
    requires after == (if LineCheck(s, king, dir) then before[EndOfDirection(s, king, dir) := true] else before)
    ensures forall q :: 0 <= q < 64 ==> (after[q] <==> LineCheckerBelow(s, king, dir + 1, q))
  {
    forall q | 0 <= q < 64
      ensures after[q] <==> LineCheckerBelow(s, king, dir + 1, q)
    {
      if LineCheckerBelow(s, king, dir + 1, q) {
        var d :| 0 <= d < dir + 1 && LineCheck(s, king, d) && EndOfDirection(s, king, d) == q;
        if d < dir {
          assert LineCheckerBelow(s, king, dir, q);
        }
      }
    }
  }

  /** One round of the knight scan. */
  lemma KnightScanStep(s: GameState, king: int, vec: int, before: Bitboard, after: Bitboard)
    requires 0 <= king < 64 && s.squares[king] != Blank && 0 <= vec < 8
    requires forall q :: 0 <= q < 64 ==>
      (before[q] <==> LineCheckerBelow(s, king, 8, q) || KnightCheckerBelow(s, king, vec, q))
    requires after == (if KnightCheck(s, king, vec) then before[KnightSquare(king, vec) := true] else before)
    ensures forall q :: 0 <= q < 64 ==>
      (after[q] <==> LineCheckerBelow(s, king, 8, q) || KnightCheckerBelow(s, king, vec + 1, q))
  {
    forall q | 0 <= q < 64
      ensures after[q] <==> LineCheckerBelow(s, king, 8, q) || KnightCheckerBelow(s, king, vec + 1, q)
    {
      if KnightCheckerBelow(s, king, vec + 1, q) {
        var v :| 0 <= v < vec + 1 && KnightCheck(s, king, v) && KnightSquare(king, v) == q;
        if v < vec {
          assert KnightCheckerBelow(s, king, vec, q);
        }
      }
    }
  }

  /** One round of the pawn scan. */
  lemma PawnScanStep(s: GameState, king: int, i: int, before: Bitboard, after: Bitboard)
    requires 0 <= king < 64 && s.squares[king] != Blank && 0 <= i < 2
    requires forall q :: 0 <= q < 64 ==>
      (before[q] <==> LineCheckerBelow(s, king, 8, q) || KnightCheckerBelow(s, king, 8, q) ||
                      PawnCheckerBelow(s, king, i, q))
    requires after == (if PawnCheck(s, king, i)
                       then before[SquareInDirection(king, PawnCaptureVector(PlayerOf(s.squares[king]), i), 1) := true]
                       else before)
    ensures forall q :: 0 <= q < 64 ==>
      (after[q] <==> LineCheckerBelow(s, king, 8, q) || KnightCheckerBelow(s, king, 8, q) ||
                     PawnCheckerBelow(s, king, i + 1, q))
  {
    forall q | 0 <= q < 64
      ensures after[q] <==> LineCheckerBelow(s, king, 8, q) || KnightCheckerBelow(s, king, 8, q) ||
                            PawnCheckerBelow(s, king, i + 1, q)
    {
      if PawnCheckerBelow(s, king, i + 1, q) {
        var j :| 0 <= j < i + 1 && PawnCheck(s, king, j) &&
          SquareInDirection(king, PawnCaptureVector(PlayerOf(s.squares[king]), j), 1) == q;
        if j < i {
          assert PawnCheckerBelow(s, king, i, q);
        }
      }
    }
  }

  /**
   * is_king_in_check and which_pieces_check_king agree: one of the three
   * kinds of attack exists exactly when the set of checking pieces is not
   * empty.
   */
  lemma AttackedIffCheckers(s: GameState, king: int)
    requires 0 <= king < 64 && s.squares[king] != Blank
    ensures (exists d :: 0 <= d < 8 && LineCheck(s, king, d)) ||
            (exists v :: 0 <= v < 8 && KnightCheck(s, king, v)) ||
            (exists i :: 0 <= i < 2 && PawnCheck(s, king, i))
            <==> Checkers(s, king) != Zero()
  {
    var c := Checkers(s, king);
    ZeroIffNoBit(c);
    if (exists d :: 0 <= d < 8 && LineCheck(s, king, d)) ||
       (exists v :: 0 <= v < 8 && KnightCheck(s, king, v)) ||
       (exists i :: 0 <= i < 2 && PawnCheck(s, king, i)) {
      if d :| 0 <= d < 8 && LineCheck(s, king, d) {
        assert c[EndOfDirection(s, king, d)];
      } else if v :| 0 <= v < 8 && KnightCheck(s, king, v) {
        assert c[KnightSquare(king, v)];
      } else {
        var i :| 0 <= i < 2 && PawnCheck(s, king, i);
        assert c[SquareInDirection(king, PawnCaptureVector(PlayerOf(s.squares[king]), i), 1)];
      }
    } else {
      forall q | 0 <= q < 64
        ensures !c[q]
      {
      }
    }
  }

  /**
   * Every reported checker is an enemy piece, other than a king, of the kind
   * that attacks along the line it stands on.
   */
  lemma CheckersAreEnemyAttackers(s: GameState, king: int, q: int)
    requires 0 <= king < 64 && s.squares[king] != Blank
    requires 0 <= q < 64 && ChecksKing(s, king, q)
    ensures Enemy(s, king, q) && !IsKing(s.squares[q])
    ensures LineCheckerBelow(s, king, 8, q) ==>
              IsRook(s.squares[q]) || IsBishop(s.squares[q]) || IsQueen(s.squares[q])
    ensures KnightCheckerBelow(s, king, 8, q) ==> IsKnight(s.squares[q])
    ensures PawnCheckerBelow(s, king, 2, q) ==> IsPawn(s.squares[q])
  {
    if LineCheckerBelow(s, king, 8, q) {
      var d :| 0 <= d < 8 && LineCheck(s, king, d) && EndOfDirection(s, king, d) == q;
    }
    if KnightCheckerBelow(s, king, 8, q) {
      var v :| 0 <= v < 8 && KnightCheck(s, king, v) && KnightSquare(king, v) == q;
    }
    if PawnCheckerBelow(s, king, 2, q) {
      var i :| 0 <= i < 2 && PawnCheck(s, king, i) &&
        SquareInDirection(king, PawnCaptureVector(PlayerOf(s.squares[king]), i), 1) == q;
    }
  }

  // ---------------------------------------------------------------------
  // Making a move and keeping only the moves that leave the king safe

  /**
   * make_move as evidently intended: a new state in which the piece on
   * `from` stands on `to` (taking whatever was there), `from` is empty and
   * the other side is to move.  The source writes through the board pointer
   * it shares with its argument; MakeMoveInPlace models that.
   */
  function MakeMove(s: GameState, from: int, to: int): (r: GameState)
    requires 0 <= from < 64 && 0 <= to < 64
    ensures r.turn == Opponent(s.turn)
    ensures r.squares[from] == Blank
    ensures to != from ==> r.squares[to] == s.squares[from]
    ensures forall i :: 0 <= i < 64 && i != from && i != to ==> r.squares[i] == s.squares[i]
  {
    GameState(s.squares[to := s.squares[from]][from := Blank], Opponent(s.turn))
  }

  /** Moving a piece to an empty square and back restores the state. */
  lemma MakeMoveUndo(s: GameState, from: int, to: int)
    requires 0 <= from < 64 && 0 <= to < 64 && from != to
    requires s.squares[to] == Blank
    ensures MakeMove(MakeMove(s, from, to), to, from) == s
  {
    var t := MakeMove(MakeMove(s, from, to), to, from);
    assert forall i :: 0 <= i < 64 ==> t.squares[i] == s.squares[i];
    assert t.squares == s.squares;
  }

  /** The index of the first square holding `piece`, or -1 when there is none. */
  function FirstIndexOf(board: seq<Piece>, piece: Piece): (r: int)
    ensures -1 <= r < |board|
    ensures r == -1 <==> piece !in board
    ensures r != -1 ==> board[r] == piece && piece !in board[..r]
  {
    if |board| == 0 then -1
    else if board[0] == piece then 0
    else if FirstIndexOf(board[1..], piece) == -1 then -1
    else FirstIndexOf(board[1..], piece) + 1
  }

  /** find_piece: scans the board from square 0 and stops at the first match. */
  method FindPiece(s: GameState, piece: Piece) returns (index: int)
    ensures index == FirstIndexOf(s.squares, piece)
  {
    index := -1;
    for i := 0 to 64
      invariant index == -1 && piece !in s.squares[..i]
    {
      if s.squares[i] == piece {
        index := i;
        break;
      }
    }
    if index == -1 {
      assert s.squares[..64] == s.squares;
    }
  }

  /**
   * After moving from `from` to `to`, the king of the side to move in s is
   * on the board and the first such king is not in check.
   */
  predicate KingSafeAfter(s: GameState, from: int, to: int)
    requires 0 <= from < 64 && 0 <= to < 64
    ensures KingSafeAfter(s, from, to) ==> KingOf(s.turn) in s.squares
    ensures KingSafeAfter(s, from, to) ==> KingOf(s.turn) in MakeMove(s, from, to).squares
  {
    var t := MakeMove(s, from, to);
    var k := FirstIndexOf(t.squares, KingOf(s.turn));
    k != -1 && !InCheck(t, k)
  }

  /** The king safety of a move, read off the first king of the mover after it. */
  lemma KingSafeAfterFirstKing(s: GameState, from: int, to: int)
    requires 0 <= from < 64 && 0 <= to < 64
    ensures var t := MakeMove(s, from, to);
            var k := FirstIndexOf(t.squares, KingOf(s.turn));
            KingSafeAfter(s, from, to) <==> k != -1 && !InCheck(t, k)
  {
  }

  /**
   * Every trial move keeps the mover's king on the board; otherwise
   * find_piece returns -1 and is_king_in_check reads outside the board.
   */
  predicate TrialsKeepKing(s: GameState, index: int, moves: Bitboard)
    requires 0 <= index < 64
  {
    forall j :: 0 <= j < 64 && moves[j] ==> KingOf(s.turn) in MakeMove(s, index, j).squares
  }

  /** The moves of the set that leave the king of the side to move out of check. */
  function FilterLegal(s: GameState, index: int, moves: Bitboard): (r: Bitboard)
    requires 0 <= index < 64
    ensures forall j :: 0 <= j < 64 ==> (r[j] <==> moves[j] && KingSafeAfter(s, index, j))
  {
    seq(64, j requires 0 <= j < 64 => moves[j] && KingSafeAfter(s, index, j))
  }

  /**
   * ensure_moves_are_legal: tries every move of the set on a copy of the
   * state and clears the ones after which the mover's king is in check.
   */
  method EnsureMovesAreLegal(s: GameState, index: int, moves: Bitboard) returns (ret: Bitboard)
    requires 0 <= index < 64
    requires TrialsKeepKing(s, index, moves)
    ensures ret == FilterLegal(s, index, moves)
  {
    // Only the contracts of the attack test and of the king search are needed.
    hide InCheck, FirstIndexOf, KingSafeAfter, Checkers;
    ret := moves;
    var kingIndex := -1;
    var kingWeAreSearchingFor := KingOf(s.turn);
    kingIndex := FindPiece(s, kingWeAreSearchingFor);
    for j := 0 to 64
      invariant forall i :: 0 <= i < 64 ==> (ret[i] <==> moves[i] && (i < j ==> KingSafeAfter(s, index, i)))
    {
      if GetNthBit(moves, j) == 1 {
        var newState := MakeMove(s, index, j);
        kingIndex := FindPiece(newState, kingWeAreSearchingFor);
        KingSafeAfterFirstKing(s, index, j);
        var inCheck := IsKingInCheck(newState, kingIndex);
        if inCheck != 0 {
          ret := SetNthBitTo(ret, j, 0);
        }
      }
    }
    var f := FilterLegal(s, index, moves);
    assert forall i :: 0 <= i < 64 ==> ret[i] == f[i];
  }

  /** The precondition of legal_moves: every candidate move keeps the mover's king on the board. */
  predicate LegalMovesDefined(s: GameState, index: int)
    requires 0 <= index < 64
  {
    TrialsKeepKing(s, index, PseudoMoves(s, index))
  }

  /**
   * The legal moves of the piece on `index`: the moves of its kind after
   * which the king of the side to move is not in check.
   */
  function LegalMoveSet(s: GameState, index: int): (r: Bitboard)
    requires 0 <= index < 64
    ensures forall j :: 0 <= j < 64 ==> (r[j] <==> PseudoMoves(s, index)[j] && KingSafeAfter(s, index, j))
  {
    FilterLegal(s, index, PseudoMoves(s, index))
  }

  /** legal_moves: the generator for the piece's kind, then the king-safety filter. */
  method LegalMoves(s: GameState, index: int) returns (ret: Bitboard)
    requires 0 <= index < 64
    requires LegalMovesDefined(s, index)
    ensures ret == LegalMoveSet(s, index)
  {
    var possibleMoves := Zero();
    var p := s.squares[index];
    if p != Blank {
      if IsRook(p) {
        possibleMoves := LegalMoveRook(s, index);
      } else if IsKnight(p) {
        possibleMoves := LegalMoveKnight(s, index);
      } else if IsBishop(p) {
        possibleMoves := LegalMoveBishop(s, index);
      } else if IsKing(p) {
        possibleMoves := LegalMoveKing(s, index);
      } else if IsQueen(p) {
        possibleMoves := LegalMoveQueen(s, index);
      } else if IsPawn(p) {
        possibleMoves := LegalMovePawn(s, index);
      }
    }
    ret := EnsureMovesAreLegal(s, index, possibleMoves);
  }

  /** An empty square has no legal move, whatever else is on the board. */
  lemma BlankHasNoLegalMoves(s: GameState, index: int)
    requires 0 <= index < 64 && s.squares[index] == Blank
    ensures LegalMovesDefined(s, index)
    ensures LegalMoveSet(s, index) == Zero()
  {
    ZeroIffNoBit(LegalMoveSet(s, index));
  }

  /**
   * A legal move goes to another square that is empty or holds an enemy
   * piece, and leaves the mover's king on the board and out of check.
   */
  lemma LegalMoveIsSafeCapture(s: GameState, index: int, j: int)
    requires 0 <= index < 64 && 0 <= j < 64
    requires LegalMoveSet(s, index)[j]
    ensures s.squares[index] != Blank && j != index
    ensures s.squares[j] == Blank || DifferentPlayer(s.squares[j], s.squares[index])
    ensures KingOf(s.turn) in MakeMove(s, index, j).squares
  {
  }

  /**
   * When the piece belongs to the side to move and that side's king is on the
   * board, no candidate move removes the king: legal_moves is well defined.
   */
  lemma OwnPieceTrialsKeepKing(s: GameState, index: int)
    requires 0 <= index < 64 && s.squares[index] != Blank
    requires PlayerOf(s.squares[index]) == s.turn
    requires KingOf(s.turn) in s.squares
    ensures LegalMovesDefined(s, index)
  {
    var king := KingOf(s.turn);
    forall j | 0 <= j < 64 && PseudoMoves(s, index)[j]
      ensures king in MakeMove(s, index, j).squares
    {
        var t := MakeMove(s, index, j);
      if s.squares[index] == king {
        assert t.squares[j] == king;
      } else {
        var k :| 0 <= k < 64 && s.squares[k] == king;
        assert k != j;
        assert t.squares[k] == king;
      }
    }
  }

  // ---------------------------------------------------------------------
  // No legal move left

  /** Every piece of the king's side has a well-defined set of legal moves. */
  predicate CheckMateDefined(s: GameState, king: int)
    requires 0 <= king < 64 && s.squares[king] != Blank
  {
    forall i :: 0 <= i < 64 && s.squares[i] != Blank && PlayerOf(s.squares[i]) == PlayerOf(s.squares[king]) ==>
      LegalMovesDefined(s, i)
  }

  /** No piece of the king's side has a legal move. */
  predicate NoLegalMove(s: GameState, king: int)
    requires 0 <= king < 64 && s.squares[king] != Blank
  {
    forall i :: 0 <= i < 64 && s.squares[i] != Blank && PlayerOf(s.squares[i]) == PlayerOf(s.squares[king]) ==>
      LegalMoveSet(s, i) == Zero()
  }

  /**
   * is_check_mate: 1 when no piece of the king's side has a legal move,
   * 0 as soon as one has.  It does not look at whether the king is in
   * check, so it also answers 1 on stalemate; its callers tell the two
   * apart with is_king_in_check.
   */
  method IsCheckMate(s: GameState, kingIndex: int) returns (r: int)
    requires 0 <= kingIndex < 64 && s.squares[kingIndex] != Blank
    requires CheckMateDefined(s, kingIndex)
    ensures r == 0 || r == 1
    ensures r == 1 <==> NoLegalMove(s, kingIndex)
  {
    var player := PlayerOf(s.squares[kingIndex]);
    var opponent := Opponent(player);
    for i := 0 to 64
      invariant forall k :: 0 <= k < i && s.squares[k] != Blank && PlayerOf(s.squares[k]) == player ==>
        LegalMoveSet(s, k) == Zero()
    {
      if s.squares[i] == Blank {
        continue;
      }
      if PlayerOf(s.squares[i]) == opponent {
        continue;
      }
      var moves := LegalMoves(s, i);
      if moves != Zero() {
        return 0;
      }
    }
    return 1;
  }

  /**
   * The question is well posed for the side to move when its king is on the
   * board: then every one of its pieces keeps the king on its trial moves.
   */
  lemma SideToMoveCheckMateDefined(s: GameState, king: int)
    requires 0 <= king < 64 && s.squares[king] == KingOf(s.turn)
    ensures CheckMateDefined(s, king)
  {
    forall i | 0 <= i < 64 && s.squares[i] != Blank && PlayerOf(s.squares[i]) == PlayerOf(s.squares[king])
      ensures LegalMovesDefined(s, i)
    {
      OwnPieceTrialsKeepKing(s, i);
    }
  }

  // ---------------------------------------------------------------------
  // make_move as written: the board is shared, not copied

  /**
   * make_move as written: the state is copied, but its `squares` member is a
   * pointer, so the copy writes into the caller's board.  The returned
   * state has the other side to move and the caller's board, now changed.
   */
  method MakeMoveInPlace(squares: array<Piece>, turn: Turn, from: int, to: int) returns (ret: GameState)
    requires squares.Length == 64 && 0 <= from < 64 && 0 <= to < 64
    modifies squares
    ensures squares[..] == old(squares[..])[to := old(squares[from])][from := Blank]
    ensures ret == GameState(squares[..], Opponent(turn))
  {
    squares[to] := squares[from];
    squares[from] := Blank;
    ret := GameState(squares[..], Opponent(turn));
  }

  /**
   * The shared board after the trial moves of ensure_moves_are_legal for the
   * set bits below j, each applied on top of the previous ones.
   */
  function SharedBoardTrials(board: Squares, index: int, moves: Bitboard, j: int): (r: Squares)
    requires 0 <= index < 64 && 0 <= j <= 64
    ensures r[index] == board[index] || r[index] == Blank
    decreases j
  {
    if j == 0 then board
    else if moves[j - 1] then SharedBoardTrials(board, index, moves, j - 1)[j - 1 := SharedBoardTrials(board, index, moves, j - 1)[index]][index := Blank]
    else SharedBoardTrials(board, index, moves, j - 1)
  }

  /** As written, trial j is judged on the shared board left by all trials up to j. */
  predicate SharedKingSafe(board: Squares, turn: Turn, index: int, moves: Bitboard, j: int)
    requires 0 <= index < 64 && 0 <= j < 64
  {
    var b := SharedBoardTrials(board, index, moves, j + 1);
    var k := FirstIndexOf(b, KingOf(turn));
    k != -1 && !InCheck(GameState(b, Opponent(turn)), k)
  }

  /** The king safety of trial j, read off the first king on the shared board after it. */
  lemma SharedKingSafeFirstKing(board: Squares, turn: Turn, index: int, moves: Bitboard, j: int)
    requires 0 <= index < 64 && 0 <= j < 64
    ensures var b := SharedBoardTrials(board, index, moves, j + 1);
            var k := FirstIndexOf(b, KingOf(turn));
            SharedKingSafe(board, turn, index, moves, j) <==> k != -1 && !InCheck(GameState(b, Opponent(turn)), k)
  {
  }

  /** As written, find_piece must find the king after every trial. */
  predicate SharedTrialsKeepKing(board: Squares, turn: Turn, index: int, moves: Bitboard)
    requires 0 <= index < 64
  {
    forall j :: 0 <= j < 64 && moves[j] ==> KingOf(turn) in SharedBoardTrials(board, index, moves, j + 1)
  }

  /**
   * ensure_moves_are_legal as written: every trial goes through
   * MakeMoveInPlace, so the caller's board accumulates the trial moves and
   * each trial is judged on that accumulated board.
   */
  method EnsureMovesAreLegalAsWritten(squares: array<Piece>, turn: Turn, index: int, moves: Bitboard)
    returns (ret: Bitboard)
    requires squares.Length == 64 && 0 <= index < 64
    requires SharedTrialsKeepKing(squares[..], turn, index, moves)
    modifies squares
    ensures squares[..] == SharedBoardTrials(old(squares[..]), index, moves, 64)
    ensures forall j :: 0 <= j < 64 ==> (ret[j] <==> moves[j] && SharedKingSafe(old(squares[..]), turn, index, moves, j))
  {
    hide InCheck, FirstIndexOf, SharedKingSafe, Checkers;
    ghost var board := squares[..];
    ret := moves;
    var kingWeAreSearchingFor := KingOf(turn);
    var kingIndex := FindPiece(GameState(squares[..], turn), kingWeAreSearchingFor);
    for j := 0 to 64
      invariant squares[..] == SharedBoardTrials(board, index, moves, j)
      invariant forall i :: 0 <= i < 64 ==> (ret[i] <==> moves[i] && (i < j ==> SharedKingSafe(board, turn, index, moves, i)))
    {
      if GetNthBit(moves, j) == 1 {
        var newState := MakeMoveInPlace(squares, turn, index, j);
        kingIndex := FindPiece(newState, kingWeAreSearchingFor);
        SharedKingSafeFirstKing(board, turn, index, moves, j);
        var inCheck := IsKingInCheck(newState, kingIndex);
        if inCheck != 0 {
          ret := SetNthBitTo(ret, j, 0);
        }
      }
    }
  }

  /** Trials for moves that are not in the set leave the shared board as it is. */
  lemma {:induction false} SharedTrialsSkip(board: Squares, index: int, moves: Bitboard, a: int, b: int)
    requires 0 <= index < 64 && 0 <= a <= b <= 64
    requires forall j :: a <= j < b ==> !moves[j]
    ensures SharedBoardTrials(board, index, moves, b) == SharedBoardTrials(board, index, moves, a)
    decreases b - a
  {
    if a < b {
      SharedTrialsSkip(board, index, moves, a, b - 1);
    }
  }

  /** In the starting position the a2 pawn (square 48) can go to a3 (40) and a4 (32) and nowhere else. */
  lemma StartPawnMoves()
    ensures PawnMoves(StartingState, 48) == Zero()[32 := true][40 := true]
  {
    var s := StartingState;
    assert s.turn == White && s.squares[48] == WPawn;
    assert s.squares[40] == Blank && s.squares[32] == Blank && s.squares[41] == Blank;
    WhiteA2PawnMoves(s);
  }

  /** From a2 the steps a pawn of White looks at: a3, a4, off the board, b3. */
  lemma A2Steps()
    ensures SquareInDirection(48, DirTop, 1) == 40
    ensures SquareInDirection(48, DirTop, 2) == 32
    ensures SquareInDirection(48, DirTopLeft, 1) == -1
    ensures SquareInDirection(48, DirTopRight, 1) == 41
    ensures CoordY(48) == PawnInitialRank(White)
  {
  }

  /** White to move with a pawn on a2 and a3, a4 and b3 empty: the pawn goes to a3 or a4. */
  lemma WhiteA2PawnMoves(s: GameState)
    requires s.turn == White && s.squares[48] == WPawn
    requires s.squares[40] == Blank && s.squares[32] == Blank && s.squares[41] == Blank
    ensures PawnMoves(s, 48) == Zero()[32 := true][40 := true]
  {
    A2Steps();
    var m := PawnMoves(s, 48);
    forall q | 0 <= q < 64
      ensures m[q] == Zero()[32 := true][40 := true][q]
    {
      assert PawnPush(s, 48, q) <==> q == 40;
      assert PawnDoublePush(s, 48, q) <==> q == 32;
    }
  }

  /**
   * The input that shows the aliasing: asking for the legal moves of the a2
   * pawn in the starting position leaves the caller's board with that pawn
   * on a4 and both a2 and a3 empty, although no move was made.
   */
  lemma SharedTrialsMoveThePawn()
    ensures var after := SharedBoardTrials(BoardStartingConfig, 48, PawnMoves(StartingState, 48), 64);
            after != BoardStartingConfig && after[32] == WPawn && after[40] == Blank && after[48] == Blank
  {
    StartPawnMoves();
    var moves := PawnMoves(StartingState, 48);
    var board := BoardStartingConfig;
    SharedTrialsSkip(board, 48, moves, 0, 32);
    SharedTrialsSkip(board, 48, moves, 33, 40);
    SharedTrialsSkip(board, 48, moves, 41, 64);
    assert board[48] == WPawn && board[32] == Blank && board[40] == Blank;
  }

  /**
   * is_king_in_check does not count the enemy king, so a king may move next
   * to the enemy king and may even capture it: with White's king on e1,
   * Black's on e2 and White to move, the capture e1-e2 is legal, and the
   * position after it has no black king.
   */
  lemma KingCapturesKing()
    ensures var s := GameState(Blanks(64)[60 := WKing][52 := BKing], White);
            LegalMovesDefined(s, 60) && LegalMoveSet(s, 60)[52] &&
            KingOf(Black) !in MakeMove(s, 60, 52).squares
  {
    var s := GameState(Blanks(64)[60 := WKing][52 := BKing], White);
    OwnPieceTrialsKeepKing(s, 60);
    assert SquareInDirection(60, DirTop, 1) == 52;
    assert KingMoves(s, 60)[52];
    var t := MakeMove(s, 60, 52);
    assert forall i :: 0 <= i < 64 && i != 52 ==> t.squares[i] == Blank;
    var k := FirstIndexOf(t.squares, WKing);
    assert t.squares[52] == WKing;
    assert k == 52;
    forall q | 0 <= q < 64
      ensures !Checkers(t, k)[q]
    {
      if ChecksKing(t, k, q) {
        CheckersAreEnemyAttackers(t, k, q);
        assert false;
      }
    }
    ZeroIffNoBit(Checkers(t, k));
    KingSafeAfterFirstKing(s, 60, 52);
    assert BKing !in t.squares;
  }
}
