/**
 * The engine of the AI-against-AI program (main-ai-vs-ai.c): its own
 * comprehensive evaluation with other weights, a plain minimax over the
 * legal moves without decay, pruning, ordering or end-of-game scores, the
 * choice of the root move at depth 3, and the names of a square's file and
 * rank.
 */
module AiVsAi {
  import opened BitUtils
  import opened Board
  import opened Rules
  import opened Evaluation
  import opened Search
  import MG = MovesGeneration

  // ---------------------------------------------------------------------
  // Evaluation

  /**
   * The program's eval_comprehensive: 0.8 material + 0.05 space + 1.5
   * mobility, with material, space and mobility computed by the same loops
   * (and the same misaligned piece values) as the engine's evaluator; it
   * lies within 54000 either way.
   */
  function ComprehensiveVariant(s: GameState): (r: real)
    ensures -54000.0 <= r <= 54000.0
  {
    0.8 * Material(s) + 0.05 * Space(s) + 1.5 * Mobility(s)
  }

  /** eval_comprehensive of main-ai-vs-ai.c. */
  method EvalComprehensiveVariant(s: GameState) returns (evaluation: real)
    ensures evaluation == ComprehensiveVariant(s)
    ensures -54000.0 <= evaluation <= 54000.0
  {
    evaluation := 0.0;
    var material := EvalMaterial(s);
    var mobility := EvalMajorPiecesMobility(s);
    var spaceCovered := EvalSpaceCoverage(s);
    evaluation := 0.8 * material + 0.05 * spaceCovered + 1.5 * mobility;
  }

  /**
   * Both evaluators weigh material and space the same way up to their
   * factors; they differ by 0.05 material and by 1.3 mobility.
   */
  lemma EvaluatorsDiffer(s: GameState)
    ensures ComprehensiveVariant(s) - Comprehensive(s) == 0.05 * Material(s) + 1.3 * Mobility(s)
  {
  }

  // ---------------------------------------------------------------------
  // Plain minimax

  /** The search depth choose_best_move asks of minimax_eval for every successor. */
  const RootDepth: nat := 3

  /**
   * The update of the move loops: White keeps v when best <= v, Black when
   * best >= v, so a tie moves the best to the later move.
   */
  function Better(white: bool, best: real, v: real): (r: real)
    ensures white && best <= v ==> r == v
    ensures white && v < best ==> r == best
    ensures !white && v <= best ==> r == v
    ensures !white && best < v ==> r == best
  {
    if white then (if best <= v then v else best)
    else (if best >= v then v else best)
  }

  /**
   * The value minimax_eval gives s at the given depth, with eval_function ==
   * minimax_eval: within the +-1000000 of the initial best values.
   */
  function MinimaxValue(s: GameState, depth: nat): (r: real)
    ensures -Infinity <= r <= Infinity
    decreases depth, 1
  {
    if depth == 0 then ComprehensiveVariant(s)
    else BestOver(s, depth, LegalMoveList(s))
  }

  /** The value of the successor after m, one level down. */
  function ChildValue(s: GameState, depth: nat, m: Move): (r: real)
    requires depth >= 1
    ensures -Infinity <= r <= Infinity
    decreases depth - 1, 2
  {
    MinimaxValue(MakeMove2(s, m), depth - 1)
  }

  /**
   * The best value after the move loop has seen `moves`, in order, from the
   * initial +-1000000; it never leaves that window.
   */
  function BestOver(s: GameState, depth: nat, moves: seq<Move>): (r: real)
    requires depth >= 1
    ensures -Infinity <= r <= Infinity
    decreases depth, 0, |moves|
  {
    if moves == [] then InitialBest(s.turn == White)
    else Better(s.turn == White, BestOver(s, depth, moves[..|moves| - 1]), ChildValue(s, depth, moves[|moves| - 1]))
  }

  /**
   * The loop's best is the largest (White) or smallest (Black) of the
   * initial value and the values of the moves seen: no value seen is
   * better, and the best is the initial value or one of those values.
   */
  lemma {:induction false} BestOverSpec(s: GameState, depth: nat, moves: seq<Move>)
    requires depth >= 1
    ensures var r := BestOver(s, depth, moves);
            var white := s.turn == White;
            (if white then r >= -Infinity else r <= Infinity) &&
            (forall k :: 0 <= k < |moves| ==>
               if white then ChildValue(s, depth, moves[k]) <= r else ChildValue(s, depth, moves[k]) >= r) &&
            (r == InitialBest(white) || exists k :: 0 <= k < |moves| && ChildValue(s, depth, moves[k]) == r)
    decreases |moves|
  {
    hide ChildValue, MinimaxValue, MakeMove2, LegalMoveList, ComprehensiveVariant;
    if moves != [] {
      var init := moves[..|moves| - 1];
      BestOverSpec(s, depth, init);
      var last := ChildValue(s, depth, moves[|moves| - 1]);
      var r0 := BestOver(s, depth, init);
      var r := BestOver(s, depth, moves);
      forall k | 0 <= k < |moves| - 1
        ensures moves[k] == init[k]
      {
      }
      if r != InitialBest(s.turn == White) && r != last {
        assert r == r0;
        var k :| 0 <= k < |init| && ChildValue(s, depth, init[k]) == r;
        assert moves[k] == init[k];
      }
    }
  }

  /**
   * minimax_eval at depth >= 1: White's value is the largest of -1000000
   * and the successors' values, Black's the smallest of 1000000 and them;
   * without a legal move it is that initial value.
   */
  lemma MinimaxNode(s: GameState, depth: nat)
    requires depth >= 1
    ensures var r := MinimaxValue(s, depth);
            var moves := LegalMoveList(s);
            var white := s.turn == White;
            (|moves| == 0 ==> r == InitialBest(white)) &&
            (forall k :: 0 <= k < |moves| ==>
               if white then ChildValue(s, depth, moves[k]) <= r else ChildValue(s, depth, moves[k]) >= r) &&
            (r == InitialBest(white) || exists k :: 0 <= k < |moves| && ChildValue(s, depth, moves[k]) == r)
  {
    BestOverSpec(s, depth, LegalMoveList(s));
  }

  /**
   * The search below s to the given depth stays defined: legal_moves is
   * defined for every piece of the side to move at every inner node.
   */
  predicate MinimaxDefined(s: GameState, depth: nat)
    decreases depth
  {
    depth == 0 ||
    (ScanDefined(s) && forall m :: m in LegalMoveList(s) ==> MinimaxDefined(MakeMove2(s, m), depth - 1))
  }

  /** The root values choose_best_move compares: each successor, in scan order, at depth 3. */
  function RootMinimaxValues(s: GameState): (r: seq<real>)
    ensures |r| == |LegalMoveList(s)|
  {
    var moves := LegalMoveList(s);
    seq(|moves|, i requires 0 <= i < |moves| => MinimaxValue(MakeMove2(s, moves[i]), RootDepth))
  }

  /** The index of the move choose_best_move keeps, -1 when it keeps none. */
  function BestRootMove(s: GameState): int {
    ScanBest(RootMinimaxValues(s), s.turn == White, 0, InitialBest(s.turn == White), -1)
  }

  /**
   * The root choice finds a move exactly when there is a legal move, and
   * that move is the last of the best: no successor scores better for the
   * side to move, and every later successor scores strictly worse.
   */
  lemma RootChoice(s: GameState)
    ensures var values := RootMinimaxValues(s);
            var r := BestRootMove(s);
            (r == -1 <==> |values| == 0) &&
            (r != -1 ==> (0 <= r < |values| &&
              (forall k :: 0 <= k < |values| ==>
                 if s.turn == White then values[k] <= values[r] else values[k] >= values[r]) &&
              (forall k :: r < k < |values| ==>
                 if s.turn == White then values[k] < values[r] else values[k] > values[r])))
  {
    hide LegalMoveList, MinimaxValue;
    var values := RootMinimaxValues(s);
    forall k | 0 <= k < |values|
      ensures -Infinity <= values[k] <= Infinity
    {
      assert values[k] == MinimaxValue(MakeMove2(s, LegalMoveList(s)[k]), RootDepth);
    }
    if s.turn == White {
      ScanBestWhite(values, 0, InitialBest(true), -1);
    } else {
      ScanBestBlack(values, 0, InitialBest(false), -1);
    }
  }

  /** The functions eval_function can point to; the program only ever stores minimax_eval. */
  datatype EvalFunction = Unset | MinimaxEval

  /** One more bit of square i adds its move, when set, to the moves seen. */
  lemma SeenStep(s: GameState, i: int, bits: Bitboard, j: int)
    requires 0 <= i < 64 && 0 <= j < 64
    ensures MovesBelow(s, i) + BitsToMoves(i, bits, j + 1) ==
            (MovesBelow(s, i) + BitsToMoves(i, bits, j)) + (if bits[j] then [Move(i, j)] else [])
  {
  }

  /** Before bit 0 of square i the moves seen are those below i; after bit 63, those below i + 1. */
  lemma SeenEnds(s: GameState, i: int, bits: Bitboard)
    requires 0 <= i < 64 && bits == MovesOf(s, i)
    ensures MovesBelow(s, i) + BitsToMoves(i, bits, 0) == MovesBelow(s, i)
    ensures MovesBelow(s, i) + BitsToMoves(i, bits, 64) == MovesBelow(s, i + 1)
  {
  }

  /** The best after one more move is the update of the best before it. */
  lemma BestOverSnoc(s: GameState, depth: nat, seen: seq<Move>, m: Move)
    requires depth >= 1
    ensures BestOver(s, depth, seen + [m]) == Better(s.turn == White, BestOver(s, depth, seen), ChildValue(s, depth, m))
  {
    assert (seen + [m])[..|seen|] == seen;
  }

  /** The successor of Move(i, j) is make_move(i, j). */
  lemma SuccessorIsMakeMove(s: GameState, i: int, j: int)
    requires 0 <= i < 64 && 0 <= j < 64
    ensures MakeMove2(s, Move(i, j)) == MakeMove(s, i, j)
  {
  }

  /**
   * The moves seen when the scans of minimax_eval and choose_best_move
   * reach bit j of square i come first in the list of legal moves.
   */
  lemma SeenPrefix(s: GameState, i: int, bits: Bitboard, j: int)
    requires 0 <= i < 64 && 0 <= j <= 64 && bits == MovesOf(s, i)
    ensures MovesBelow(s, i) + BitsToMoves(i, bits, j) <= LegalMoveList(s)
  {
    assert LegalMoveList(s) == MovesBelow(s, 64);
    hide *;
    MovesBelowPrefix(s, i + 1, 64);
    BitsToMovesPrefix(i, bits, j, 64);
    SeenEnds(s, i, bits);
    var below := MovesBelow(s, i);
    var part := BitsToMoves(i, bits, j);
    var whole := BitsToMoves(i, bits, 64);
    assert part == whole[..|part|];
    assert below + part == (below + whole)[..|below| + |part|];
  }

  /** The program's global search state: the eval_function pointer. */
  class Engine {
    var evalFunction: EvalFunction

    constructor ()
      ensures evalFunction == Unset
    {
      evalFunction := Unset;
    }

    /**
     * minimax_eval: the comprehensive evaluation at depth 0; otherwise every
     * piece of the side to move, square by square, every legal destination,
     * bit by bit, the successor scored through eval_function one level down,
     * keeping the best with <= (White) or >= (Black).
     */
    method MinimaxEvalMethod(s: GameState, depth: nat) returns (bestVal: real)
      requires evalFunction == MinimaxEval
      requires MinimaxDefined(s, depth)
      ensures bestVal == MinimaxValue(s, depth)
      decreases depth, 2
    {
      if depth == 0 {
        bestVal := EvalComprehensiveVariant(s);
        LeafValue(s);
        return;
      }
      MinimaxUnfold(s, depth);
      assert BestOver(s, depth, MovesBelow(s, 0)) == InitialBest(s.turn == White);
      // The scan only follows the listed moves; the rules of play stay hidden.
      hide MinimaxValue, MinimaxDefined, LegalMoveList, LegalMoveSet, LegalMovesDefined, ComprehensiveVariant,
        MakeMove, MakeMove2, MovesBelow, BitsToMoves, BestOver, MovesOf, ScanDefined;
      if s.turn == White {
        bestVal := -1000000.0;
      } else {
        bestVal := 1000000.0;
      }
      for i := 0 to 64
        invariant bestVal == BestOver(s, depth, MovesBelow(s, i))
      {
        if s.squares[i] != Blank && PlayerOf(s.squares[i]) == s.turn {
          bestVal := MinimaxSquare(s, depth, i, bestVal);
        } else {
          SkipSquare(s, i);
        }
      }
    }

    /** The inner loop of minimax_eval over the legal destinations of square i. */
    method MinimaxSquare(s: GameState, depth: nat, i: int, bestIn: real) returns (bestVal: real)
      requires evalFunction == MinimaxEval
      requires depth >= 1 && 0 <= i < 64 && Owns(s, i) && MinimaxDefined(s, depth)
      requires bestIn == BestOver(s, depth, MovesBelow(s, i))
      ensures bestVal == BestOver(s, depth, MovesBelow(s, i + 1))
      decreases depth, 1
    {
      hide *;
      OwnSquareDefined(s, depth, i);
      var allMovesFromI := LegalMoves(s, i);
      NthBits(allMovesFromI);
      SeenEnds(s, i, allMovesFromI);
      bestVal := bestIn;
      for j := 0 to 64
        invariant bestVal == BestOver(s, depth, MovesBelow(s, i) + BitsToMoves(i, allMovesFromI, j))
      {
        ghost var seen := MovesBelow(s, i) + BitsToMoves(i, allMovesFromI, j);
        SeenStep(s, i, allMovesFromI, j);
        if GetNthBit(allMovesFromI, j) == 1 {
          ChildDefinedAt(s, depth, i, j);
          BestOverSnoc(s, depth, seen, Move(i, j));
          bestVal := MinimaxMove(s, depth, i, j, bestVal);
        } else {
          assert seen + [] == seen;
        }
      }
    }

    /**
     * The body of minimax_eval's loops for one legal move: the successor
     * scored one level down replaces the best when it is at least as good.
     */
    method MinimaxMove(s: GameState, depth: nat, i: int, j: int, bestIn: real) returns (bestVal: real)
      requires evalFunction == MinimaxEval
      requires depth >= 1 && 0 <= i < 64 && 0 <= j < 64 && MinimaxDefined(MakeMove(s, i, j), depth - 1)
      ensures bestVal == Better(s.turn == White, bestIn, MinimaxValue(MakeMove(s, i, j), depth - 1))
      decreases depth, 0
    {
      hide *;
      var newState := MakeMove(s, i, j);
      var valOfNewState := MinimaxEvalMethod(newState, depth - 1);
      bestVal := bestIn;
      if s.turn == White {
        if bestVal <= valOfNewState {
          bestVal := valOfNewState;
        }
      } else {
        if bestVal >= valOfNewState {
          bestVal := valOfNewState;
        }
      }
    }

    /**
     * choose_best_move of main-ai-vs-ai.c: stores minimax_eval in
     * eval_function, scores every legal move, in scan order, by minimax_eval
     * at depth 3, and keeps the last move with the best value; 1 with that
     * move's squares, or -1 when there is no legal move.
     */
    method ChooseBestMove(s: GameState) returns (ret: int, from: int, to: int)
      requires MinimaxDefined(s, RootDepth + 1)
      modifies this
      ensures evalFunction == MinimaxEval
      ensures ret == -1 || ret == 1
      ensures ret == -1 <==> |LegalMoveList(s)| == 0
      ensures ret == 1 ==> 0 <= BestRootMove(s) < |LegalMoveList(s)| && 0 <= from < 64 && 0 <= to < 64 &&
                           Move(from, to) == LegalMoveList(s)[BestRootMove(s)]
    {
      evalFunction := MinimaxEval;
      RootChoice(s);
      assert MovesBelow(s, 64) == LegalMoveList(s);
      hide LegalMoveList, RootMinimaxValues, MinimaxDefined, MinimaxValue, MovesBelow, LegalMoveSet, LegalMovesDefined;
      var bestVal: real;
      ret := -1;
      if s.turn == White {
        bestVal := -1000000.0;
      } else {
        bestVal := 1000000.0;
      }
      from, to := 0, 0;
      ghost var bestIdx := -1;
      for i := 0 to 64
        invariant evalFunction == MinimaxEval
        invariant RootScanState(s, |MovesBelow(s, i)|, ret, from, to, bestVal, bestIdx)
      {
        if s.squares[i] != Blank && PlayerOf(s.squares[i]) == s.turn {
          ret, from, to, bestVal, bestIdx := RootSquare(s, i, ret, from, to, bestVal, bestIdx);
        } else {
          SkipSquare(s, i);
        }
      }
    }

    /** The inner loop of choose_best_move over the legal destinations of square i. */
    method RootSquare(s: GameState, i: int, ret0: int, from0: int, to0: int, best0: real, ghost idx0: int)
      returns (ret: int, from: int, to: int, bestVal: real, ghost bestIdx: int)
      requires evalFunction == MinimaxEval
      requires 0 <= i < 64 && Owns(s, i) && MinimaxDefined(s, RootDepth + 1)
      requires RootScanState(s, |MovesBelow(s, i)|, ret0, from0, to0, best0, idx0)
      ensures RootScanState(s, |MovesBelow(s, i + 1)|, ret, from, to, bestVal, bestIdx)
    {
      hide *;
      OwnSquareDefined(s, RootDepth + 1, i);
      var allMovesFromI := LegalMoves(s, i);
      NthBits(allMovesFromI);
      SeenEnds(s, i, allMovesFromI);
      ret, from, to, bestVal, bestIdx := ret0, from0, to0, best0, idx0;
      for j := 0 to 64
        invariant RootScanState(s, |MovesBelow(s, i) + BitsToMoves(i, allMovesFromI, j)|, ret, from, to, bestVal, bestIdx)
      {
        ghost var n := |MovesBelow(s, i) + BitsToMoves(i, allMovesFromI, j)|;
        SeenStep(s, i, allMovesFromI, j);
        if GetNthBit(allMovesFromI, j) == 1 {
          NextListed(s, i, allMovesFromI, j);
          ret, from, to, bestVal, bestIdx := RootMove(s, n, i, j, ret, from, to, bestVal, bestIdx);
        } else {
          assert MovesBelow(s, i) + BitsToMoves(i, allMovesFromI, j + 1) == MovesBelow(s, i) + BitsToMoves(i, allMovesFromI, j);
        }
      }
    }

    /**
     * The body of choose_best_move's loops for the n-th legal move
     * Move(i, j): its successor scored at depth 3 replaces the best, with
     * its squares, when it is at least as good.
     */
    method RootMove(s: GameState, ghost n: int, i: int, j: int, ret0: int, from0: int, to0: int, best0: real, ghost idx0: int)
      returns (ret: int, from: int, to: int, bestVal: real, ghost bestIdx: int)
      requires evalFunction == MinimaxEval
      requires MinimaxDefined(s, RootDepth + 1) && RootScanState(s, n, ret0, from0, to0, best0, idx0)
      requires 0 <= i < 64 && 0 <= j < 64 && 0 <= n < |LegalMoveList(s)| && LegalMoveList(s)[n] == Move(i, j)
      ensures RootScanState(s, n + 1, ret, from, to, bestVal, bestIdx)
    {
      RootValueAt(s, n);
      SuccessorIsMakeMove(s, i, j);
      hide *;
      var newState := MakeMove(s, i, j);
      var valOfNewState := MinimaxEvalMethod(newState, RootDepth);
      RootScanStep(s, n, ret0, from0, to0, best0, idx0, i, j, valOfNewState);
      ret, from, to, bestVal, bestIdx := ret0, from0, to0, best0, idx0;
      if s.turn == White {
        if bestVal <= valOfNewState {
          bestVal := valOfNewState;
          from, to := i, j;
          bestIdx := n;
          ret := 1;
        }
      } else {
        if bestVal >= valOfNewState {
          bestVal := valOfNewState;
          from, to := i, j;
          bestIdx := n;
          ret := 1;
        }
      }
    }
  }

  /** At depth 0 minimax_eval is the comprehensive evaluation. */
  lemma LeafValue(s: GameState)
    ensures MinimaxValue(s, 0) == ComprehensiveVariant(s)
  {
  }

  /** Above depth 0 a defined search scans defined moves, and its value is the best over all of them. */
  lemma MinimaxUnfold(s: GameState, depth: nat)
    requires depth >= 1 && MinimaxDefined(s, depth)
    ensures ScanDefined(s)
    ensures MinimaxValue(s, depth) == BestOver(s, depth, MovesBelow(s, 64))
  {
  }

  /** A set bit j of square i's legal moves is a listed move: its successor's search is defined, and is its value. */
  lemma ChildDefinedAt(s: GameState, depth: nat, i: int, j: int)
    requires depth >= 1 && MinimaxDefined(s, depth)
    requires 0 <= i < 64 && 0 <= j < 64 && Owns(s, i) && MovesOf(s, i)[j]
    ensures MinimaxDefined(MakeMove(s, i, j), depth - 1)
    ensures ChildValue(s, depth, Move(i, j)) == MinimaxValue(MakeMove(s, i, j), depth - 1)
  {
    assert Move(i, j) in LegalMoveList(s);
  }

  /** In a defined search every piece of the side to move has its legal moves, and they are the ones listed. */
  lemma OwnSquareDefined(s: GameState, depth: nat, i: int)
    requires depth >= 1 && MinimaxDefined(s, depth) && 0 <= i < 64 && Owns(s, i)
    ensures LegalMovesDefined(s, i) && MovesOf(s, i) == LegalMoveSet(s, i)
  {
  }

  /** get_nth_bit answers 1 exactly for the set bits. */
  lemma NthBits(x: Bitboard)
    ensures forall j :: 0 <= j < 64 ==> (GetNthBit(x, j) == 1 <==> x[j])
  {
  }

  /** A square without a piece of the side to move adds no move. */
  lemma SkipSquare(s: GameState, i: int)
    requires 0 <= i < 64 && !Owns(s, i)
    ensures MovesBelow(s, i + 1) == MovesBelow(s, i)
  {
    BitsToMovesZero(i, 64);
  }

  /** A set bit j of square i lists Move(i, j) right after the moves seen before it. */
  lemma NextListed(s: GameState, i: int, bits: Bitboard, j: int)
    requires 0 <= i < 64 && 0 <= j < 64 && bits == MovesOf(s, i) && bits[j]
    ensures var n := |MovesBelow(s, i) + BitsToMoves(i, bits, j)|;
            n < |LegalMoveList(s)| && LegalMoveList(s)[n] == Move(i, j)
  {
    SeenPrefix(s, i, bits, j + 1);
    SeenStep(s, i, bits, j);
    var seen := MovesBelow(s, i) + BitsToMoves(i, bits, j);
    assert (seen + [Move(i, j)])[|seen|] == Move(i, j);
  }

  /** One step of the root scan: the move at n replaces the best exactly when it is at least as good. */
  lemma RootScanStep(s: GameState, n: int, ret: int, from: int, to: int, bestVal: real, bestIdx: int,
                     i: int, j: int, v: real)
    requires RootScanState(s, n, ret, from, to, bestVal, bestIdx)
    requires 0 <= i < 64 && 0 <= j < 64 && n < |LegalMoveList(s)| && LegalMoveList(s)[n] == Move(i, j)
    requires v == RootMinimaxValues(s)[n]
    ensures var take := if s.turn == White then bestVal <= v else bestVal >= v;
            (take ==> RootScanState(s, n + 1, 1, i, j, v, n)) &&
            (!take ==> RootScanState(s, n + 1, ret, from, to, bestVal, bestIdx))
  {
  }

  /**
   * The state of the root scan after n legal moves: the index kept, its
   * value and squares, and the scan's remaining answer.
   */
  ghost predicate RootScanState(s: GameState, n: int, ret: int, from: int, to: int, bestVal: real, bestIdx: int) {
    var values := RootMinimaxValues(s);
    0 <= n <= |values| && -1 <= bestIdx < n &&
    (bestIdx == -1 ==> bestVal == InitialBest(s.turn == White) && ret == -1) &&
    (bestIdx != -1 ==> ret == 1 && 0 <= from < 64 && 0 <= to < 64 &&
                       Move(from, to) == LegalMoveList(s)[bestIdx] && bestVal == values[bestIdx]) &&
    ScanBest(values, s.turn == White, n, bestVal, bestIdx) == BestRootMove(s)
  }

  /** The moves below i come first in the moves below k. */
  lemma {:induction false} MovesBelowPrefix(s: GameState, i: int, k: int)
    requires 0 <= i <= k <= 64
    ensures MovesBelow(s, i) <= MovesBelow(s, k)
    decreases k - i
  {
    if i < k {
      MovesBelowPrefix(s, i, k - 1);
    }
  }

  /** The moves to the bits below j come first in those below k. */
  lemma {:induction false} BitsToMovesPrefix(from: Square, bits: Bitboard, j: int, k: int)
    requires 0 <= j <= k <= 64
    ensures BitsToMoves(from, bits, j) <= BitsToMoves(from, bits, k)
    decreases k - j
  {
    if j < k {
      BitsToMovesPrefix(from, bits, j, k - 1);
    }
  }

  /** The n-th root value is the depth-3 value of the n-th legal move's successor, and that search is defined. */
  lemma RootValueAt(s: GameState, n: int)
    requires MinimaxDefined(s, RootDepth + 1) && 0 <= n < |LegalMoveList(s)|
    ensures RootMinimaxValues(s)[n] == MinimaxValue(MakeMove2(s, LegalMoveList(s)[n]), RootDepth)
    ensures MinimaxDefined(MakeMove2(s, LegalMoveList(s)[n]), RootDepth)
  {
    assert LegalMoveList(s)[n] in LegalMoveList(s);
  }

  // ---------------------------------------------------------------------
  // Square names

  /** The files[] and ranks[] tables. */
  const Files: string := "abcdefgh"
  const Ranks: string := "12345678"

  /** get_file_for_board_index: the file letter of the square's x coordinate. */
  function GetFileForBoardIndex(idx: int): (c: char)
    requires 0 <= idx < 64
    ensures MG.IsFileLetter(c) && c as int - 97 == idx % 8
  {
    Files[CoordX(idx)]
  }

  /** get_rank_for_board_index: the rank digit of the square's y coordinate. */
  function GetRankForBoardIndex(idx: int): (c: char)
    requires 0 <= idx < 64
    ensures MG.IsRankDigit(c) && c as int - 49 == (63 - idx) / 8
  {
    Ranks[CoordY(idx)]
  }

  /** Reading back the name of a square with str_to_boardindex gives the square. */
  lemma SquareNameRoundTrip(idx: int)
    requires 0 <= idx < 64
    ensures MG.SquareIndex([GetFileForBoardIndex(idx), GetRankForBoardIndex(idx)]) == idx
  {
    var name := [GetFileForBoardIndex(idx), GetRankForBoardIndex(idx)];
    assert name[0] == GetFileForBoardIndex(idx) && name[1] == GetRankForBoardIndex(idx);
  }
}
