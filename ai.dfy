/**
 * The game-tree search of ai.h: the list of legal moves of the side to
 * move, move ordering by static evaluation, alpha-beta search with decayed
 * child values and terminal scores, and the choice of the root move.
 */
module Search {
  import opened BitUtils
  import opened Board
  import opened Rules
  import opened Evaluation

  const SearchDepth: nat := 4
  /** The initial best value and search window bound, 1000000. */
  const Infinity: real := 1000000.0

  type Square = i: int | 0 <= i < 64

  /** A move by its origin and destination (get_from_bits / get_to_bits). */
  datatype Move = Move(from: Square, to: Square)

  datatype MoveWithValue = MoveWithValue(move: Move, value: real)

  /**
   * make_move_2: the state after a move, as make_move: the other side is to
   * move, the origin is empty, the destination holds the moved piece and
   * every other square is unchanged.
   */
  function MakeMove2(s: GameState, m: Move): (r: GameState)
    ensures r.turn == Opponent(s.turn)
    ensures r.squares[m.from] == Blank
    ensures m.to != m.from ==> r.squares[m.to] == s.squares[m.from]
    ensures forall i :: 0 <= i < 64 && i != m.from && i != m.to ==> r.squares[i] == s.squares[i]
  {
    MakeMove(s, m.from, m.to)
  }

  // ---------------------------------------------------------------------
  // The legal moves of the side to move, in scan order

  /** The piece on square i belongs to the side to move. */
  predicate Owns(s: GameState, i: int)
    requires 0 <= i < 64
  {
    s.squares[i] != Blank && PlayerOf(s.squares[i]) == s.turn
  }

  /** The king of the side to move is on the board. */
  predicate KingPresent(s: GameState) {
    KingOf(s.turn) in s.squares
  }

  /** legal_moves is defined for every piece of the side to move. */
  predicate ScanDefined(s: GameState) {
    forall i :: 0 <= i < 64 && Owns(s, i) ==> LegalMovesDefined(s, i)
  }

  /** With its king on the board, the side to move can ask for all its legal moves. */
  lemma KingPresentScanDefined(s: GameState)
    requires KingPresent(s)
    ensures ScanDefined(s)
  {
    forall i | 0 <= i < 64 && Owns(s, i)
      ensures LegalMovesDefined(s, i)
    {
      OwnPieceTrialsKeepKing(s, i);
    }
  }

  /** The moves from `from` to the set bits below j, in increasing order. */
  function BitsToMoves(from: Square, bits: Bitboard, j: int): seq<Move>
    requires 0 <= j <= 64
  {
    if j == 0 then [] else BitsToMoves(from, bits, j - 1) + (if bits[j - 1] then [Move(from, j - 1)] else [])
  }

  /** The legal moves of square i when it holds a piece of the side to move. */
  function MovesOf(s: GameState, i: int): Bitboard
    requires 0 <= i < 64
  {
    if Owns(s, i) then LegalMoveSet(s, i) else Zero()
  }

  /** The legal moves from the squares below i, square by square. */
  function MovesBelow(s: GameState, i: int): seq<Move>
    requires 0 <= i <= 64
  {
    if i == 0 then [] else MovesBelow(s, i - 1) + BitsToMoves(i - 1, MovesOf(s, i - 1), 64)
  }

  /**
   * All legal moves of the side to move, origin by origin, destination by
   * destination: a move is listed exactly when its origin holds a piece of
   * the side to move and its destination is among that piece's legal moves.
   */
  function LegalMoveList(s: GameState): (r: seq<Move>)
    ensures forall m :: m in r <==> Owns(s, m.from) && LegalMoveSet(s, m.from)[m.to]
  {
    MovesBelowMembers(s);
    MovesBelow(s, 64)
  }

  lemma {:induction false} BitsToMovesMembership(from: Square, bits: Bitboard, j: int, m: Move)
    requires 0 <= j <= 64
    ensures m in BitsToMoves(from, bits, j) <==> m.from == from && m.to < j && bits[m.to]
  {
    if j > 0 {
      BitsToMovesMembership(from, bits, j - 1, m);
    }
  }

  lemma {:induction false} MovesBelowMembership(s: GameState, i: int, m: Move)
    requires 0 <= i <= 64
    ensures m in MovesBelow(s, i) <==> m.from < i && MovesOf(s, m.from)[m.to]
  {
    if i > 0 {
      MovesBelowMembership(s, i - 1, m);
      BitsToMovesMembership(i - 1, MovesOf(s, i - 1), 64, m);
    }
  }

  /** Every move below square 64, listed or not, as MovesBelowMembership tells. */
  lemma MovesBelowMembers(s: GameState)
    ensures forall m :: m in MovesBelow(s, 64) <==> Owns(s, m.from) && LegalMoveSet(s, m.from)[m.to]
  {
    forall m: Move
      ensures m in MovesBelow(s, 64) <==> Owns(s, m.from) && LegalMoveSet(s, m.from)[m.to]
    {
      MovesBelowMembership(s, 64, m);
    }
  }

  /** One instance of the membership LegalMoveList promises. */
  lemma Listed(s: GameState, m: Move)
    ensures m in LegalMoveList(s) <==> Owns(s, m.from) && LegalMoveSet(s, m.from)[m.to]
  {
  }

  /**
   * The list is empty exactly when is_check_mate answers 1 for the king of
   * the side to move: no piece of that side has a legal move.
   */
  lemma NoMovesIffNoLegalMove(s: GameState, king: int)
    requires 0 <= king < 64 && s.squares[king] == KingOf(s.turn)
    ensures |LegalMoveList(s)| == 0 <==> NoLegalMove(s, king)
  {
    if |LegalMoveList(s)| == 0 {
      forall i | 0 <= i < 64 && s.squares[i] != Blank && PlayerOf(s.squares[i]) == PlayerOf(s.squares[king])
        ensures LegalMoveSet(s, i) == Zero()
      {
        assert Owns(s, i);
        hide *;
        forall j | 0 <= j < 64
          ensures !LegalMoveSet(s, i)[j]
        {
          Listed(s, Move(i, j));
        }
        ZeroIffNoBit(LegalMoveSet(s, i));
      }
    } else {
      var m := LegalMoveList(s)[0];
      ZeroIffNoBit(LegalMoveSet(s, m.from));
    }
  }

  lemma {:induction false} BitsToMovesZero(from: Square, j: int)
    requires 0 <= j <= 64
    ensures BitsToMoves(from, Zero(), j) == []
  {
    if j > 0 {
      BitsToMovesZero(from, j - 1);
    }
  }

  /** The inner loop of get_legal_moves_as_move_array: one move per set bit, in bit order. */
  method AppendMoves(moves0: seq<Move>, from: Square, bits: Bitboard) returns (moves: seq<Move>)
    ensures moves == moves0 + BitsToMoves(from, bits, 64)
  {
    moves := moves0;
    for j := 0 to 64
      invariant moves == moves0 + BitsToMoves(from, bits, j)
    {
      if GetNthBit(bits, j) == 1 {
        moves := moves + [Move(from, j)];
      }
    }
  }

  /**
   * get_legal_moves_as_move_array: the (origin, destination) pairs of the
   * legal moves of every piece of the side to move, scanned as minimax_eval
   * of main-ai-vs-ai.c scans them.
   */
  method GetLegalMovesAsMoveArray(s: GameState) returns (moves: seq<Move>)
    requires ScanDefined(s)
    ensures moves == LegalMoveList(s)
  {
    // The list is built from the legal-move sets as values; what they hold is not needed here.
    hide LegalMoveSet, LegalMovesDefined;
    moves := [];
    for i := 0 to 64
      invariant moves == MovesBelow(s, i)
    {
      if s.squares[i] != Blank && PlayerOf(s.squares[i]) == s.turn {
        var allMovesFromI := LegalMoves(s, i);
        moves := AppendMoves(moves, i, allMovesFromI);
      } else {
        BitsToMovesZero(i, 64);
      }
    }
  }

  // ---------------------------------------------------------------------
  // Move ordering

  /** compare_two_moves: -1, 0 or 1 as a's value is below, equal to or above b's. */
  function CompareTwoMoves(a: MoveWithValue, b: MoveWithValue): (r: int)
    ensures r == -1 <==> a.value < b.value
    ensures r == 0 <==> a.value == b.value
    ensures r == 1 <==> a.value > b.value
  {
    (if a.value > b.value then 1 else 0) - (if a.value < b.value then 1 else 0)
  }

  /**
   * The ordering key: the successor's evaluation, negated when White moves,
   * so that a smaller key is a better successor for the side to move.
   */
  function Key(s: GameState, m: Move): (r: real)
    ensures s.turn == White ==> r == -Comprehensive(MakeMove2(s, m))
    ensures s.turn == Black ==> r == Comprehensive(MakeMove2(s, m))
    ensures -45000.0 <= r <= 45000.0
  {
    Comprehensive(MakeMove2(s, m)) * (if s.turn == White then -1.0 else 1.0)
  }

  /** Each move paired with its key. */
  function Annotate(s: GameState, moves: seq<Move>): (r: seq<MoveWithValue>)
    ensures |r| == |moves|
    ensures forall i :: 0 <= i < |moves| ==> r[i] == MoveWithValue(moves[i], Key(s, moves[i]))
  {
    seq(|moves|, i requires 0 <= i < |moves| => MoveWithValue(moves[i], Key(s, moves[i])))
  }

  /** The moves of a sequence of pairs. */
  function Strip(mwvs: seq<MoveWithValue>): (r: seq<Move>)
    ensures |r| == |mwvs|
    ensures forall i :: 0 <= i < |mwvs| ==> r[i] == mwvs[i].move
  {
    seq(|mwvs|, i requires 0 <= i < |mwvs| => mwvs[i].move)
  }

  /** Inserts x before the first element whose value is not below it. */
  function InsertByValue(x: MoveWithValue, sorted: seq<MoveWithValue>): seq<MoveWithValue> {
    if |sorted| == 0 then [x]
    else if x.value <= sorted[0].value then [x] + sorted
    else [sorted[0]] + InsertByValue(x, sorted[1..])
  }

  /**
   * The library qsort with compare_two_moves, modelled as an insertion sort
   * that keeps equal values in their input order.
   */
  function SortByValue(xs: seq<MoveWithValue>): (r: seq<MoveWithValue>)
    ensures SortedByValue(r)
    ensures multiset(r) == multiset(xs)
    ensures |r| == |xs|
  {
    if |xs| == 0 then []
    else
      var rest := SortByValue(xs[1..]);
      InsertSortStep(xs, rest);
      InsertByValue(xs[0], rest)
  }

  /** Inserting the head into the sorted tail sorts the whole sequence. */
  lemma InsertSortStep(xs: seq<MoveWithValue>, rest: seq<MoveWithValue>)
    requires |xs| > 0 && SortedByValue(rest) && multiset(rest) == multiset(xs[1..])
    ensures SortedByValue(InsertByValue(xs[0], rest))
    ensures multiset(InsertByValue(xs[0], rest)) == multiset(xs)
    ensures |InsertByValue(xs[0], rest)| == |xs|
  {
    InsertByValueSorted(xs[0], rest);
    InsertByValuePerm(xs[0], rest);
    assert xs == [xs[0]] + xs[1..];
    assert |multiset(InsertByValue(xs[0], rest))| == |multiset(xs)|;
  }

  predicate SortedByValue(xs: seq<MoveWithValue>) {
    forall i, j :: 0 <= i < j < |xs| ==> xs[i].value <= xs[j].value
  }

  /** Inserting adds exactly the inserted pair. */
  lemma {:induction false} InsertByValuePerm(x: MoveWithValue, sorted: seq<MoveWithValue>)
    ensures multiset(InsertByValue(x, sorted)) == multiset(sorted) + multiset{x}
    decreases |sorted|
  {
    if |sorted| > 0 && x.value > sorted[0].value {
      InsertByValuePerm(x, sorted[1..]);
      assert sorted == [sorted[0]] + sorted[1..];
    }
  }

  /** Inserting into a sorted sequence keeps it sorted. */
  lemma {:induction false} InsertByValueSorted(x: MoveWithValue, sorted: seq<MoveWithValue>)
    requires SortedByValue(sorted)
    ensures SortedByValue(InsertByValue(x, sorted))
    ensures forall y :: y in InsertByValue(x, sorted) ==> y == x || y in sorted
    decreases |sorted|
  {
    if |sorted| > 0 && x.value > sorted[0].value {
      InsertByValueSorted(x, sorted[1..]);
      var rest := InsertByValue(x, sorted[1..]);
      forall j | 0 <= j < |rest|
        ensures sorted[0].value <= rest[j].value
      {
        assert rest[j] in rest;
        if rest[j] != x {
          assert rest[j] in sorted[1..];
          var k :| 0 <= k < |sorted[1..]| && sorted[1..][k] == rest[j];
          assert sorted[k + 1] == rest[j];
        }
      }
      var r := [sorted[0]] + rest;
      forall i, j | 0 <= i < j < |r|
        ensures r[i].value <= r[j].value
      {
        if i > 0 {
          assert r[i] == rest[i - 1] && r[j] == rest[j - 1];
        }
      }
      forall y | y in r
        ensures y == x || y in sorted
      {
        if y != sorted[0] {
          assert y in rest;
          assert y == x || y in sorted[1..];
        }
      }
    }
  }

  /** Inserting a pair adds exactly its move to the stripped moves. */
  lemma {:induction false} StripInsert(x: MoveWithValue, sorted: seq<MoveWithValue>)
    ensures multiset(Strip(InsertByValue(x, sorted))) == multiset(Strip(sorted)) + multiset{x.move}
    decreases |sorted|
  {
    var r := InsertByValue(x, sorted);
    if |sorted| == 0 {
      assert Strip(r) == [x.move];
    } else if x.value <= sorted[0].value {
      assert Strip(r) == [x.move] + Strip(sorted);
    } else {
      StripInsert(x, sorted[1..]);
      assert Strip(r) == [sorted[0].move] + Strip(InsertByValue(x, sorted[1..]));
      assert Strip(sorted) == [sorted[0].move] + Strip(sorted[1..]);
    }
  }

  /** Sorting the pairs permutes their moves. */
  lemma {:induction false} StripSort(xs: seq<MoveWithValue>)
    ensures multiset(Strip(SortByValue(xs))) == multiset(Strip(xs))
  {
    if |xs| > 0 {
      StripSort(xs[1..]);
      StripInsert(xs[0], SortByValue(xs[1..]));
      assert Strip(xs) == [xs[0].move] + Strip(xs[1..]);
    }
  }

  /**
   * The moves in the order sort_moves_by_static_eval leaves them: the same
   * moves, each as often, in non-decreasing order of the successor's
   * evaluation times -1 for White and 1 for Black, so that White sees its
   * best successors first, and so does Black.
   */
  function SortedMoves(s: GameState, moves: seq<Move>): (r: seq<Move>)
    ensures |r| == |moves|
    ensures forall m :: m in r <==> m in moves
    ensures forall i, j :: 0 <= i < j < |moves| ==> Key(s, r[i]) <= Key(s, r[j])
    ensures multiset(r) == multiset(moves)
  {
    StripSortSpec(s, moves);
    Strip(SortByValue(Annotate(s, moves)))
  }

  /** The moves of the sorted pairs are the moves, permuted, in key order. */
  lemma StripSortSpec(s: GameState, moves: seq<Move>)
    ensures var r := Strip(SortByValue(Annotate(s, moves)));
            |r| == |moves| && (forall m :: m in r <==> m in moves) &&
            (forall i, j :: 0 <= i < j < |moves| ==> Key(s, r[i]) <= Key(s, r[j])) &&
            multiset(r) == multiset(moves)
  {
    var a := Annotate(s, moves);
    var sorted := SortByValue(a);
    var r := Strip(sorted);
    StripSort(a);
    assert Strip(a) == moves;
    hide *;
    forall m
      ensures m in r <==> m in moves
    {
      assert m in r <==> m in multiset(r);
      assert m in moves <==> m in multiset(moves);
    }
    forall k | 0 <= k < |sorted|
      ensures sorted[k].value == Key(s, r[k])
    {
      assert sorted[k] in multiset(sorted);
      assert sorted[k] in a;
    }
  }

  // ---------------------------------------------------------------------
  // The game tree

  /**
   * The game tree below a state to a given depth, as the search sees it: a
   * leaf holds the static evaluation, a node without legal moves its
   * end-of-game score, and an inner node the side to move and the trees of
   * its successors in search order.
   */
  datatype GameTree =
    | Leaf(eval: real)
    | NoMoves(score: real)
    | Node(white: bool, kids: seq<GameTree>)

  /** The moves in search order: sorted by static evaluation above depth 1. */
  function OrderedMoves(s: GameState, depth: nat): seq<Move> {
    if depth > 1 then SortedMoves(s, LegalMoveList(s)) else LegalMoveList(s)
  }

  /**
   * The score of a node without moves: 1000 when Black is checkmated and
   * -1000 when White is; -500 for Black and 500 for White on stalemate.
   * (With no king of the side to move on the board the source reads outside
   * the board; this value is never used there, see SearchDefined.)
   */
  function TerminalScore(s: GameState): (r: real)
    ensures var k := FirstIndexOf(s.squares, KingOf(s.turn));
            var mated := k != -1 && InCheck(s, k);
            (r == 1000.0 <==> mated && s.turn == Black) &&
            (r == -1000.0 <==> mated && s.turn == White) &&
            (r == -500.0 <==> !mated && s.turn == Black) &&
            (r == 500.0 <==> !mated && s.turn == White)
  {
    var k := FirstIndexOf(s.squares, KingOf(s.turn));
    if k != -1 && InCheck(s, k) then (if s.turn == Black then 1000.0 else -1000.0)
    else (if s.turn == Black then -500.0 else 500.0)
  }

  /**
   * The tree minimax_eval_alpha_beta_pruning explores from s to the given
   * depth: a leaf exactly at depth 0, an end-of-game node exactly when there
   * is no legal move above it, and otherwise a node of the side to move with
   * one subtree per legal move.
   */
  function Tree(s: GameState, depth: nat): (r: GameTree)
    ensures r.Leaf? <==> depth == 0
    ensures r.NoMoves? <==> depth > 0 && |LegalMoveList(s)| == 0
    ensures r.Node? ==> r.white == (s.turn == White) && |r.kids| == |LegalMoveList(s)|
    decreases depth
  {
    if depth == 0 then Leaf(Comprehensive(s))
    else if |LegalMoveList(s)| == 0 then NoMoves(TerminalScore(s))
    else
      var moves := OrderedMoves(s, depth);
      Node(s.turn == White, seq(|moves|, i requires 0 <= i < |moves| => Tree(MakeMove2(s, moves[i]), depth - 1)))
  }

  /** An inner node has one subtree per legal move, in search order. */
  lemma TreeNode(s: GameState, depth: nat)
    requires depth >= 1 && |LegalMoveList(s)| > 0
    ensures |OrderedMoves(s, depth)| == |LegalMoveList(s)|
    ensures forall m :: m in OrderedMoves(s, depth) <==> m in LegalMoveList(s)
    ensures var t := Tree(s, depth);
            t.Node? && t.white == (s.turn == White) && |t.kids| == |LegalMoveList(s)| &&
            forall i :: 0 <= i < |t.kids| ==> t.kids[i] == Tree(MakeMove2(s, OrderedMoves(s, depth)[i]), depth - 1)
  {
  }

  // ---------------------------------------------------------------------
  // Alpha-beta search over the tree

  /** max of two floats. */
  function Max(a: real, b: real): (r: real)
    ensures r >= a && r >= b && (r == a || r == b)
  {
    if a > b then a else b
  }

  /** min of two floats. */
  function Min(a: real, b: real): (r: real)
    ensures r <= a && r <= b && (r == a || r == b)
  {
    if a < b then a else b
  }

  /** The starting best value: -1000000 for White, 1000000 for Black. */
  function InitialBest(white: bool): real {
    if white then -Infinity else Infinity
  }

  /**
   * The value minimax_eval_alpha_beta_pruning returns for a tree and a
   * window: the evaluation of a leaf, the score of an end-of-game node, and
   * for an inner node never below White's or above Black's initial best.
   */
  function Value(t: GameTree, alpha: real, beta: real): (r: real)
    ensures t.Leaf? ==> r == t.eval
    ensures t.NoMoves? ==> r == t.score
    ensures t.Node? && t.white ==> r >= InitialBest(true)
    ensures t.Node? && !t.white ==> r <= InitialBest(false)
    decreases t, 1
  {
    match t
    case Leaf(e) => e
    case NoMoves(v) => v
    case Node(white, kids) => Loop(t, 0, InitialBest(white), alpha, beta)
  }

  /**
   * The move loop from the i-th subtree on, with the best value and window so
   * far: each child value is decayed by VALUE_DECAY_FACTOR (0.98); White
   * raises best and alpha and stops after a value above beta, Black lowers
   * best and beta and stops after a value below alpha.
   */
  function Loop(t: GameTree, i: nat, best: real, alpha: real, beta: real): (r: real)
    requires t.Node? && i <= |t.kids|
    ensures t.white ==> r >= best
    ensures !t.white ==> r <= best
    decreases t, 0, |t.kids| - i
  {
    if i == |t.kids| then best
    else
      var v := 0.98 * Value(t.kids[i], alpha, beta);
      if t.white then
        if v > beta then Max(best, v) else Loop(t, i + 1, Max(best, v), Max(alpha, v), beta)
      else
        if v < alpha then Min(best, v) else Loop(t, i + 1, Min(best, v), alpha, Min(beta, v))
  }

  /**
   * The number of search calls for a tree and a window, the call at its root
   * included: the first subtree of a node is always searched.
   */
  function Calls(t: GameTree, alpha: real, beta: real): (r: nat)
    ensures r >= 1
    ensures t.Node? && |t.kids| > 0 ==> r >= 2
    decreases t, 1
  {
    if t.Node? then 1 + LoopCalls(t, 0, InitialBest(t.white), alpha, beta) else 1
  }

  /** The search calls made by the move loop from the i-th subtree on. */
  function LoopCalls(t: GameTree, i: nat, best: real, alpha: real, beta: real): nat
    requires t.Node? && i <= |t.kids|
    decreases t, 0, |t.kids| - i
  {
    if i == |t.kids| then 0
    else
      var c := Calls(t.kids[i], alpha, beta);
      var v := 0.98 * Value(t.kids[i], alpha, beta);
      if t.white then
        if v > beta then c else c + LoopCalls(t, i + 1, Max(best, v), Max(alpha, v), beta)
      else
        if v < alpha then c else c + LoopCalls(t, i + 1, Min(best, v), alpha, Min(beta, v))
  }

  /** The decayed child values the move loop computes from the i-th subtree on, up to and including a cutoff. */
  function Visited(t: GameTree, i: nat, best: real, alpha: real, beta: real): seq<real>
    requires t.Node? && i <= |t.kids|
    decreases |t.kids| - i
  {
    if i == |t.kids| then []
    else
      var v := 0.98 * Value(t.kids[i], alpha, beta);
      if t.white then
        if v > beta then [v] else [v] + Visited(t, i + 1, Max(best, v), Max(alpha, v), beta)
      else
        if v < alpha then [v] else [v] + Visited(t, i + 1, Min(best, v), alpha, Min(beta, v))
  }

  /**
   * White's move loop: the result is the largest of `best` and the visited
   * values; every visited value but the last is at most beta, and the loop
   * stops before the last subtree only after a value above beta.
   */
  lemma {:induction false} WhiteLoop(t: GameTree, i: nat, best: real, alpha: real, beta: real)
    requires t.Node? && i <= |t.kids| && t.white
    ensures var vs := Visited(t, i, best, alpha, beta);
            var r := Loop(t, i, best, alpha, beta);
            (r == best || r in vs) && r >= best && (forall v :: v in vs ==> v <= r) &&
            (forall k :: 0 <= k < |vs| - 1 ==> vs[k] <= beta) &&
            (|vs| < |t.kids| - i ==> |vs| > 0 && vs[|vs| - 1] > beta)
    decreases |t.kids| - i
  {
    hide Value, Calls;
    if i < |t.kids| {
      var v := 0.98 * Value(t.kids[i], alpha, beta);
      if v <= beta {
        WhiteLoop(t, i + 1, Max(best, v), Max(alpha, v), beta);
      }
    }
  }

  /**
   * Black's move loop: the result is the smallest of `best` and the visited
   * values; every visited value but the last is at least alpha, and the loop
   * stops before the last subtree only after a value below alpha.
   */
  lemma {:induction false} BlackLoop(t: GameTree, i: nat, best: real, alpha: real, beta: real)
    requires t.Node? && i <= |t.kids| && !t.white
    ensures var vs := Visited(t, i, best, alpha, beta);
            var r := Loop(t, i, best, alpha, beta);
            (r == best || r in vs) && r <= best && (forall v :: v in vs ==> v >= r) &&
            (forall k :: 0 <= k < |vs| - 1 ==> vs[k] >= alpha) &&
            (|vs| < |t.kids| - i ==> |vs| > 0 && vs[|vs| - 1] < alpha)
    decreases |t.kids| - i
  {
    hide Value, Calls;
    if i < |t.kids| {
      var v := 0.98 * Value(t.kids[i], alpha, beta);
      if v >= alpha {
        BlackLoop(t, i + 1, Min(best, v), alpha, Min(beta, v));
      }
    }
  }

  /** After the last subtree the move loop returns the best value so far and makes no more calls. */
  lemma LoopEnd(t: GameTree, best: real, alpha: real, beta: real)
    requires t.Node?
    ensures Loop(t, |t.kids|, best, alpha, beta) == best
    ensures LoopCalls(t, |t.kids|, best, alpha, beta) == 0
  {
  }

  /** One round of the move loop: the value and the call count after the i-th subtree. */
  lemma LoopStep(t: GameTree, i: nat, best: real, alpha: real, beta: real, v: real)
    requires t.Node? && i < |t.kids| && v == 0.98 * Value(t.kids[i], alpha, beta)
    ensures t.white && v > beta ==>
              Loop(t, i, best, alpha, beta) == Max(best, v) &&
              LoopCalls(t, i, best, alpha, beta) == Calls(t.kids[i], alpha, beta)
    ensures t.white && v <= beta ==>
              Loop(t, i, best, alpha, beta) == Loop(t, i + 1, Max(best, v), Max(alpha, v), beta) &&
              LoopCalls(t, i, best, alpha, beta) ==
                Calls(t.kids[i], alpha, beta) + LoopCalls(t, i + 1, Max(best, v), Max(alpha, v), beta)
    ensures !t.white && v < alpha ==>
              Loop(t, i, best, alpha, beta) == Min(best, v) &&
              LoopCalls(t, i, best, alpha, beta) == Calls(t.kids[i], alpha, beta)
    ensures !t.white && v >= alpha ==>
              Loop(t, i, best, alpha, beta) == Loop(t, i + 1, Min(best, v), alpha, Min(beta, v)) &&
              LoopCalls(t, i, best, alpha, beta) ==
                Calls(t.kids[i], alpha, beta) + LoopCalls(t, i + 1, Min(best, v), alpha, Min(beta, v))
  {
  }

  /** Every leaf and end-of-game score lies within b either way, and every inner node has a subtree. */
  predicate Bounded(t: GameTree, b: real)
    decreases t
  {
    match t
    case Leaf(e) => -b <= e <= b
    case NoMoves(v) => -b <= v <= b
    case Node(_, kids) => |kids| > 0 && forall k :: 0 <= k < |kids| ==> Bounded(kids[k], b)
  }

  /** The search value of a bounded tree keeps the bound, whatever the window. */
  lemma {:induction false} ValueBounded(t: GameTree, b: real, alpha: real, beta: real)
    requires 0.0 <= b <= Infinity && Bounded(t, b)
    ensures -b <= Value(t, alpha, beta) <= b
    decreases t, 1
  {
    if t.Node? {
      LoopBounded(t, b, 0, InitialBest(t.white), alpha, beta);
    }
  }

  /** A loop that starts from the initial best and visits a subtree, or starts inside the bound, ends inside it. */
  lemma {:induction false} LoopBounded(t: GameTree, b: real, i: nat, best: real, alpha: real, beta: real)
    requires 0.0 <= b <= Infinity && Bounded(t, b) && t.Node? && i <= |t.kids|
    requires (best == InitialBest(t.white) && i < |t.kids|) || -b <= best <= b
    ensures -b <= Loop(t, i, best, alpha, beta) <= b
    decreases t, 0, |t.kids| - i
  {
    if i < |t.kids| {
      ValueBounded(t.kids[i], b, alpha, beta);
      var v := 0.98 * Value(t.kids[i], alpha, beta);
      if t.white && v <= beta {
        LoopBounded(t, b, i + 1, Max(best, v), Max(alpha, v), beta);
      } else if !t.white && v >= alpha {
        LoopBounded(t, b, i + 1, Min(best, v), alpha, Min(beta, v));
      }
    }
  }

  /** The bound every search value keeps: well inside the +-1000000 window. */
  const ScoreBound: real := 45000.0

  /** The engine's trees are bounded by 45000: evaluations and end-of-game scores stay inside it. */
  lemma {:induction false} TreeBounded(s: GameState, depth: nat)
    ensures Bounded(Tree(s, depth), ScoreBound)
    decreases depth
  {
    if depth > 0 && |LegalMoveList(s)| > 0 {
      TreeNode(s, depth);
      var t := Tree(s, depth);
      var moves := OrderedMoves(s, depth);
      forall k | 0 <= k < |t.kids|
        ensures Bounded(t.kids[k], ScoreBound)
      {
        TreeBounded(MakeMove2(s, moves[k]), depth - 1);
      }
    }
  }

  /** Every search value of the engine lies within 45000 either way. */
  lemma SearchValueBound(s: GameState, depth: nat, alpha: real, beta: real)
    ensures -ScoreBound <= Value(Tree(s, depth), alpha, beta) <= ScoreBound
  {
    TreeBounded(s, depth);
    ValueBounded(Tree(s, depth), ScoreBound, alpha, beta);
  }

  // ---------------------------------------------------------------------
  // Where the source's search is defined

  /**
   * The search below s to the given depth stays defined: legal_moves is
   * defined at every inner node, and a node without moves has its king on
   * the board for the check test.
   */
  predicate SearchDefined(s: GameState, depth: nat)
    decreases depth, 1
  {
    depth == 0 ||
    (ScanDefined(s) && (|LegalMoveList(s)| == 0 ==> KingPresent(s)) &&
     ChildrenDefined(s, depth, LegalMoveList(s)))
  }

  /** Where the search is defined, legal_moves is defined for every own piece. */
  lemma NodeScanDefined(s: GameState, depth: nat)
    requires depth >= 1 && SearchDefined(s, depth)
    ensures ScanDefined(s)
  {
  }

  /** The search below every successor in the list is defined to depth - 1. */
  predicate ChildrenDefined(s: GameState, depth: nat, moves: seq<Move>)
    requires depth >= 1
    decreases depth, 0
  {
    forall m :: m in moves ==> SearchDefined(MakeMove2(s, m), depth - 1)
  }

  /** The search below the i-th successor in search order is defined to depth - 1. */
  lemma OrderedChildDefined(s: GameState, depth: nat, i: int)
    requires depth >= 1 && SearchDefined(s, depth) && |LegalMoveList(s)| > 0
    requires 0 <= i < |OrderedMoves(s, depth)|
    ensures SearchDefined(MakeMove2(s, OrderedMoves(s, depth)[i]), depth - 1)
  {
    TreeNode(s, depth);
    assert OrderedMoves(s, depth)[i] in OrderedMoves(s, depth);
  }

  /** The search below the i-th legal move is defined to depth - 1. */
  lemma ChildDefined(s: GameState, depth: nat, i: int)
    requires depth >= 1 && SearchDefined(s, depth) && 0 <= i < |LegalMoveList(s)|
    ensures SearchDefined(MakeMove2(s, LegalMoveList(s)[i]), depth - 1)
  {
    assert LegalMoveList(s)[i] in LegalMoveList(s);
  }

  /**
   * choose_best_move needs no king at the root: with White to move on an
   * empty board there is no legal move, so the search is never entered and
   * find_piece is never asked for the missing king.
   */
  lemma EmptyBoardRoot()
    ensures var s := GameState(Blanks(64), White);
            ScanDefined(s) && ChildrenDefined(s, SearchDepth + 1, LegalMoveList(s)) &&
            |LegalMoveList(s)| == 0 && !KingPresent(s)
  {
    var s := GameState(Blanks(64), White);
    assert forall i :: 0 <= i < 64 ==> !Owns(s, i);
    assert KingOf(White) !in s.squares;
    hide LegalMoveList, MovesBelow, LegalMoveSet, MakeMove2, SearchDefined;
    var moves := LegalMoveList(s);
    if |moves| > 0 {
      Listed(s, moves[0]);
      assert false;
    }
  }

  // ---------------------------------------------------------------------
  // The root

  /** The trees choose_best_move searches: every successor, in scan order, to SEARCH_DEPTH. */
  function RootTrees(s: GameState): (r: seq<GameTree>)
    ensures |r| == |LegalMoveList(s)|
  {
    var moves := LegalMoveList(s);
    seq(|moves|, i requires 0 <= i < |moves| => Tree(MakeMove2(s, moves[i]), SearchDepth))
  }

  /** The values choose_best_move compares: each root tree searched in the full window. */
  function RootValues(s: GameState): (r: seq<real>)
    ensures |r| == |LegalMoveList(s)|
  {
    var ts := RootTrees(s);
    seq(|ts|, i requires 0 <= i < |ts| => Value(ts[i], -Infinity, Infinity))
  }

  /** The search calls choose_best_move makes for the first n root moves. */
  function RootCalls(s: GameState, n: nat): nat
    requires n <= |LegalMoveList(s)|
  {
    if n == 0 then 0 else RootCalls(s, n - 1) + Calls(RootTrees(s)[n - 1], -Infinity, Infinity)
  }

  /** The i-th root value and the calls it adds, in terms of the i-th legal move's tree. */
  lemma RootChild(s: GameState, i: nat)
    requires i < |LegalMoveList(s)|
    ensures var t := Tree(MakeMove2(s, LegalMoveList(s)[i]), SearchDepth);
            RootValues(s)[i] == Value(t, -Infinity, Infinity) &&
            RootCalls(s, i + 1) == RootCalls(s, i) + Calls(t, -Infinity, Infinity)
  {
  }

  /**
   * The index the root scan keeps: starting from the initial best value,
   * every value at least as good (>= for White, <= for Black) replaces the
   * best, so the last of the equally good values wins; -1 if none does.
   */
  function ScanBest(values: seq<real>, white: bool, i: nat, bestVal: real, bestIdx: int): (r: int)
    requires i <= |values|
    ensures r == bestIdx || i <= r < |values|
    ensures r != bestIdx ==> (white ==> values[r] >= bestVal) && (!white ==> values[r] <= bestVal)
    decreases |values| - i
  {
    if i == |values| then bestIdx
    else if (white && bestVal <= values[i]) || (!white && bestVal >= values[i]) then
      ScanBest(values, white, i + 1, values[i], i)
    else ScanBest(values, white, i + 1, bestVal, bestIdx)
  }

  /** One step of the root scan. */
  lemma ScanBestStep(values: seq<real>, white: bool, i: nat, bestVal: real, bestIdx: int)
    requires i < |values|
    ensures ScanBest(values, white, i, bestVal, bestIdx) ==
            if (white && bestVal <= values[i]) || (!white && bestVal >= values[i]) then
              ScanBest(values, white, i + 1, values[i], i)
            else ScanBest(values, white, i + 1, bestVal, bestIdx)
  {
  }

  /**
   * With values above the initial best (White) the scan picks the last
   * maximal value; every later value is strictly smaller.
   */
  lemma {:induction false} ScanBestWhite(values: seq<real>, i: nat, bestVal: real, bestIdx: int)
    requires i <= |values|
    requires bestIdx == -1 || (0 <= bestIdx < i && values[bestIdx] == bestVal)
    requires forall k :: 0 <= k < i ==> values[k] <= bestVal
    requires forall k :: bestIdx < k < i ==> values[k] < bestVal
    requires forall k :: i <= k < |values| ==> values[k] >= -Infinity
    requires bestIdx == -1 ==> bestVal == -Infinity
    ensures var r := ScanBest(values, true, i, bestVal, bestIdx);
            (r == -1 <==> bestIdx == -1 && i == |values|) &&
            (r != -1 ==> (0 <= r < |values| &&
                          (forall k :: 0 <= k < |values| ==> values[k] <= values[r]) &&
                          (forall k :: r < k < |values| ==> values[k] < values[r])))
    decreases |values| - i
  {
    if i < |values| {
      if bestVal <= values[i] {
        ScanBestWhite(values, i + 1, values[i], i);
      } else {
        ScanBestWhite(values, i + 1, bestVal, bestIdx);
      }
    }
  }

  /**
   * With values below the initial best (Black) the scan picks the last
   * minimal value; every later value is strictly larger.
   */
  lemma {:induction false} ScanBestBlack(values: seq<real>, i: nat, bestVal: real, bestIdx: int)
    requires i <= |values|
    requires bestIdx == -1 || (0 <= bestIdx < i && values[bestIdx] == bestVal)
    requires forall k :: 0 <= k < i ==> values[k] >= bestVal
    requires forall k :: bestIdx < k < i ==> values[k] > bestVal
    requires forall k :: i <= k < |values| ==> values[k] <= Infinity
    requires bestIdx == -1 ==> bestVal == Infinity
    ensures var r := ScanBest(values, false, i, bestVal, bestIdx);
            (r == -1 <==> bestIdx == -1 && i == |values|) &&
            (r != -1 ==> (0 <= r < |values| &&
                          (forall k :: 0 <= k < |values| ==> values[k] >= values[r]) &&
                          (forall k :: r < k < |values| ==> values[k] > values[r])))
    decreases |values| - i
  {
    if i < |values| {
      if bestVal >= values[i] {
        ScanBestBlack(values, i + 1, values[i], i);
      } else {
        ScanBestBlack(values, i + 1, bestVal, bestIdx);
      }
    }
  }

  /** The index of the move choose_best_move keeps, -1 when there is none. */
  function BestRootIndex(s: GameState): int {
    ScanBest(RootValues(s), s.turn == White, 0, InitialBest(s.turn == White), -1)
  }

  /**
   * The state of the root loop after n moves: no move kept yet (the initial
   * best value), or the kept move, its index and its value; finishing the
   * scan from here gives BestRootIndex.
   */
  ghost predicate RootState(s: GameState, moves: seq<Move>, n: int, found: int, bestMove: Move, bestVal: real, bestIdx: int) {
    moves == LegalMoveList(s) && 0 <= n <= |moves| && -1 <= bestIdx < n &&
    (bestIdx == -1 ==> bestVal == InitialBest(s.turn == White) && found == -1) &&
    (bestIdx != -1 ==> found == 1 && bestMove == moves[bestIdx] && bestVal == RootValues(s)[bestIdx]) &&
    ScanBest(RootValues(s), s.turn == White, n, bestVal, bestIdx) == BestRootIndex(s)
  }

  /** Before the first move the root loop keeps nothing, with the initial best value. */
  lemma RootStateStart(s: GameState)
    ensures s.turn == White ==> RootState(s, LegalMoveList(s), 0, -1, Move(0, 0), -1000000.0, -1)
    ensures s.turn == Black ==> RootState(s, LegalMoveList(s), 0, -1, Move(0, 0), 1000000.0, -1)
  {
  }

  /** After the last move the root loop has kept BestRootIndex, and its move. */
  lemma RootStateEnd(s: GameState, moves: seq<Move>, found: int, bestMove: Move, bestVal: real, bestIdx: int)
    requires RootState(s, moves, |moves|, found, bestMove, bestVal, bestIdx)
    ensures found == -1 || found == 1
    ensures found == -1 <==> BestRootIndex(s) == -1
    ensures found == 1 ==> 0 <= BestRootIndex(s) < |moves| && bestMove == moves[BestRootIndex(s)]
  {
    assert ScanBest(RootValues(s), s.turn == White, |moves|, bestVal, bestIdx) == bestIdx;
  }

  /**
   * The root scan finds a move exactly when there is a legal move, and the
   * move it finds is the last of the best: no successor scores better for
   * the side to move (higher for White, lower for Black), and every later
   * successor scores strictly worse.
   */
  lemma RootScan(s: GameState)
    ensures var values := RootValues(s);
            var r := BestRootIndex(s);
            (r == -1 <==> |values| == 0) &&
            (r != -1 ==> (0 <= r < |values| &&
              (forall k :: 0 <= k < |values| ==>
                 if s.turn == White then values[k] <= values[r] else values[k] >= values[r]) &&
              (forall k :: r < k < |values| ==>
                 if s.turn == White then values[k] < values[r] else values[k] > values[r])))
  {
    hide LegalMoveList, Tree;
    var values := RootValues(s);
    forall k | 0 <= k < |values|
      ensures -Infinity <= values[k] <= Infinity
    {
      SearchValueBound(MakeMove2(s, LegalMoveList(s)[k]), SearchDepth, -Infinity, Infinity);
    }
    if s.turn == White {
      ScanBestWhite(values, 0, InitialBest(true), -1);
    } else {
      ScanBestBlack(values, 0, InitialBest(false), -1);
    }
  }

  /** The search state of ai.h: the global counter of explored states. */
  class Searcher {
    var nStatesExplored: nat

    constructor ()
      ensures nStatesExplored == 0
    {
      nStatesExplored := 0;
    }

    /**
     * create_move_value_array_from_move_array: pairs every move with the
     * evaluation of its successor, negated when White moves.
     */
    static method CreateMoveValueArrayFromMoveArray(s: GameState, moves: array<Move>, mwv: array<MoveWithValue>, n: int)
      requires n == moves.Length == mwv.Length
      modifies mwv
      ensures mwv[..] == Annotate(s, moves[..])
    {
      for i := 0 to n
        invariant forall k :: 0 <= k < i ==> mwv[k] == MoveWithValue(moves[k], Key(s, moves[k]))
      {
        var newState := MakeMove2(s, moves[i]);
        var e := EvalComprehensive(newState);
        mwv[i] := MoveWithValue(moves[i], e * (if s.turn == White then -1.0 else 1.0));
      }
    }

    /** qsort(mwvs, n, sizeof(MoveWithValue), &compare_two_moves) */
    static method QSort(mwvs: array<MoveWithValue>)
      modifies mwvs
      ensures mwvs[..] == SortByValue(old(mwvs[..]))
    {
      var sorted := SortByValue(mwvs[..]);
      for i := 0 to mwvs.Length
        invariant forall k :: 0 <= k < i ==> mwvs[k] == sorted[k]
      {
        mwvs[i] := sorted[i];
      }
    }

    /** create_move_array_from_move_value_array: the moves of the pairs, in order. */
    static method CreateMoveArrayFromMoveValueArray(mwvs: array<MoveWithValue>, moves: array<Move>, n: int)
      requires n == moves.Length == mwvs.Length
      modifies moves
      ensures moves[..] == Strip(mwvs[..])
    {
      for i := 0 to n
        invariant forall k :: 0 <= k < i ==> moves[k] == mwvs[k].move
      {
        moves[i] := mwvs[i].move;
      }
    }

    /** sort_moves_by_static_eval */
    static method SortMovesByStaticEval(s: GameState, moves: array<Move>, n: int)
      requires n == moves.Length
      modifies moves
      ensures moves[..] == SortedMoves(s, old(moves[..]))
    {
      var mwvs := new MoveWithValue[n](_ => MoveWithValue(Move(0, 0), 0.0));
      CreateMoveValueArrayFromMoveArray(s, moves, mwvs, n);
      QSort(mwvs);
      CreateMoveArrayFromMoveValueArray(mwvs, moves, n);
    }

    /**
     * minimax_eval_alpha_beta_pruning: counts the call, evaluates the leaf,
     * scores a node without moves, or searches the (ordered) moves.
     */
    method MinimaxEvalAlphaBetaPruning(s: GameState, depth: nat, alpha0: real, beta0: real) returns (result: real)
      requires SearchDefined(s, depth)
      modifies this
      ensures result == Value(Tree(s, depth), alpha0, beta0)
      ensures nStatesExplored == old(nStatesExplored) + Calls(Tree(s, depth), alpha0, beta0)
      decreases depth, 1
    {
      // The proof goes through LeafIsStaticEvaluation, NoMoveScores and
      // TreeNode, which state what is needed of the tree; hiding the rest
      // keeps the rules of play out of it.
      hide Tree, SearchDefined, LegalMoveList, Comprehensive, InCheck, SortedMoves;
      nStatesExplored := nStatesExplored + 1;
      if depth == 0 {
        result := EvalComprehensive(s);
        LeafIsStaticEvaluation(s, alpha0, beta0);
        return;
      }
      NodeScanDefined(s, depth);
      var bestVal: real;
      if s.turn == White {
        bestVal := -1000000.0;
      } else {
        bestVal := 1000000.0;
      }
      var list := GetLegalMovesAsMoveArray(s);
      var nMoves := |list|;
      if nMoves == 0 {
        NoMoveScores(s, depth, alpha0, beta0);
        var kingIndex := FindPiece(s, if s.turn == White then WKing else BKing);
        var inCheck := IsKingInCheck(s, kingIndex);
        if inCheck != 0 {
          result := if s.turn == Black then 1000.0 else -1000.0;
        } else {
          result := if s.turn == Black then -500.0 else 500.0;
        }
        return;
      }
      var moves := new Move[nMoves](k requires 0 <= k < nMoves => list[k]);
      assert moves[..] == list;
      if depth > 1 {
        SortMovesByStaticEval(s, moves, nMoves);
      }
      TreeNode(s, depth);
      assert moves[..] == OrderedMoves(s, depth);
      forall k | 0 <= k < moves.Length
        ensures SearchDefined(MakeMove2(s, moves[k]), depth - 1)
      {
        OrderedChildDefined(s, depth, k);
      }
      result := SearchMoves(s, depth, moves, Tree(s, depth), bestVal, alpha0, beta0);
    }

    /**
     * The move loop of minimax: searches the state after each move to
     * depth - 1 in the current window, scales the value by the decay factor,
     * and narrows the window (alpha for White, beta for Black) until a value
     * falls outside it.  `t` holds the subtrees of the moves, in order.
     */
    method SearchMoves(s: GameState, depth: nat, moves: array<Move>, ghost t: GameTree,
                       bestVal0: real, alpha0: real, beta0: real) returns (result: real)
      requires depth >= 1 && t.Node? && t.white == (s.turn == White) && moves.Length == |t.kids|
      requires forall k :: 0 <= k < moves.Length ==>
                 SearchDefined(MakeMove2(s, moves[k]), depth - 1) &&
                 t.kids[k] == Tree(MakeMove2(s, moves[k]), depth - 1)
      modifies this
      ensures result == Loop(t, 0, bestVal0, alpha0, beta0)
      ensures nStatesExplored == old(nStatesExplored) + LoopCalls(t, 0, bestVal0, alpha0, beta0)
      decreases depth, 0
    {
      // The loop needs only that each subtree is the one of its move; hiding
      // the bodies of Tree and SearchDefined keeps the rules of play out of
      // the proof.
      hide Tree, SearchDefined, Value, Calls, MakeMove2, Loop, LoopCalls;
      var bestVal, alpha, beta := bestVal0, alpha0, beta0;
      ghost var ordered := moves[..];
      var i := 0;
      while i < moves.Length
        invariant 0 <= i <= moves.Length
        invariant Loop(t, i, bestVal, alpha, beta) == Loop(t, 0, bestVal0, alpha0, beta0)
        invariant nStatesExplored + LoopCalls(t, i, bestVal, alpha, beta) ==
                  old(nStatesExplored) + LoopCalls(t, 0, bestVal0, alpha0, beta0)
        decreases moves.Length - i
      {
        var newState := MakeMove2(s, moves[i]);
        assert moves[i] == ordered[i];
        ghost var before := nStatesExplored;
        var childValue := MinimaxEvalAlphaBetaPruning(newState, depth - 1, alpha, beta);
        var valOfNewState := 0.98 * childValue;
        LoopStep(t, i, bestVal, alpha, beta, valOfNewState);
        if s.turn == White {
          bestVal := Max(bestVal, valOfNewState);
          alpha := Max(alpha, valOfNewState);
          if valOfNewState > beta {
            break;
          }
        } else {
          bestVal := Min(bestVal, valOfNewState);
          beta := Min(beta, valOfNewState);
          if valOfNewState < alpha {
            break;
          }
        }
        i := i + 1;
      }
      if i == moves.Length {
        LoopEnd(t, bestVal, alpha, beta);
      }
      result := bestVal;
    }

    /**
     * choose_best_move: resets the counter, searches every legal move to
     * SEARCH_DEPTH in a full window, and keeps the last move with the best
     * value; 1 with that move, or -1 when there is no legal move.
     */
    method ChooseBestMove(s: GameState) returns (ret: int, bestMove: Move)
      requires ScanDefined(s) && ChildrenDefined(s, SearchDepth + 1, LegalMoveList(s))
      modifies this
      ensures ret == -1 || ret == 1
      ensures ret == -1 <==> |LegalMoveList(s)| == 0
      ensures ret == 1 ==> 0 <= BestRootIndex(s) < |LegalMoveList(s)| && bestMove == LegalMoveList(s)[BestRootIndex(s)]
      ensures nStatesExplored == RootCalls(s, |LegalMoveList(s)|)
    {
      nStatesExplored := 0;
      var moves := GetLegalMovesAsMoveArray(s);
      forall k | 0 <= k < |moves|
        ensures SearchDefined(MakeMove2(s, moves[k]), SearchDepth)
      {
        assert moves[k] in LegalMoveList(s);
      }
      ret, bestMove := SearchRootMoves(s, moves);
      RootScan(s);
    }

    /**
     * The move loop of choose_best_move: searches the state after each legal
     * move to SEARCH_DEPTH in the full window and keeps the last move whose
     * value is at least as good (>= for White, <= for Black) as the best so
     * far; 1 with that move, -1 when no move was kept.
     */
    method SearchRootMoves(s: GameState, moves: seq<Move>) returns (found: int, bestMove: Move)
      requires moves == LegalMoveList(s)
      requires forall k :: 0 <= k < |moves| ==> SearchDefined(MakeMove2(s, moves[k]), SearchDepth)
      modifies this
      ensures found == -1 || found == 1
      ensures found == -1 <==> BestRootIndex(s) == -1
      ensures found == 1 ==> 0 <= BestRootIndex(s) < |moves| && bestMove == moves[BestRootIndex(s)]
      ensures nStatesExplored == old(nStatesExplored) + RootCalls(s, |moves|)
    {
      // The scan needs only the root values and their trees, which RootChild
      // gives move by move; each round is RootStep.
      assert RootCalls(s, 0) == 0;
      RootStateStart(s);
      hide *;
      var bestVal: real;
      found := -1;
      if s.turn == White {
        bestVal := -1000000.0;
      } else {
        bestVal := 1000000.0;
      }
      bestMove := Move(0, 0);
      ghost var bestIdx := -1;
      for i := 0 to |moves|
        invariant RootState(s, moves, i, found, bestMove, bestVal, bestIdx)
        invariant nStatesExplored == old(nStatesExplored) + RootCalls(s, i)
      {
        RootChild(s, i);
        found, bestMove, bestVal, bestIdx := RootStep(s, moves, i, found, bestMove, bestVal, bestIdx);
      }
      RootStateEnd(s, moves, found, bestMove, bestVal, bestIdx);
    }

    /**
     * One round of the root loop of choose_best_move: searches the state
     * after moves[i] in the full window and keeps the move when its value is
     * at least as good as the best so far.
     */
    method RootStep(s: GameState, moves: seq<Move>, i: nat, found0: int, bestMove0: Move, bestVal0: real,
                    ghost bestIdx0: int) returns (found: int, bestMove: Move, bestVal: real, ghost bestIdx: int)
      requires i < |moves| && RootState(s, moves, i, found0, bestMove0, bestVal0, bestIdx0)
      requires SearchDefined(MakeMove2(s, moves[i]), SearchDepth)
      modifies this
      ensures RootState(s, moves, i + 1, found, bestMove, bestVal, bestIdx)
      ensures nStatesExplored == old(nStatesExplored) + Calls(Tree(MakeMove2(s, moves[i]), SearchDepth), -Infinity, Infinity)
    {
      found, bestMove, bestVal, bestIdx := found0, bestMove0, bestVal0, bestIdx0;
      var newState := MakeMove2(s, moves[i]);
      RootChild(s, i);
      ScanBestStep(RootValues(s), s.turn == White, i, bestVal, bestIdx);
      hide LegalMoveList, Tree, SearchDefined, RootTrees, RootValues, RootCalls, MakeMove2, Value, Calls, ScanBest;
      var valOfNewState := MinimaxEvalAlphaBetaPruning(newState, SearchDepth, -1000000.0, 1000000.0);
      if s.turn == White {
        if bestVal <= valOfNewState {
          bestVal := valOfNewState;
          bestMove := moves[i];
          bestIdx := i;
          found := 1;
        }
      } else {
        if bestVal >= valOfNewState {
          bestVal := valOfNewState;
          bestMove := moves[i];
          bestIdx := i;
          found := 1;
        }
      }
    }
  }

  /** At depth 0 the search is the static evaluation, and it costs one call. */
  lemma LeafIsStaticEvaluation(s: GameState, alpha: real, beta: real)
    ensures Value(Tree(s, 0), alpha, beta) == Comprehensive(s)
    ensures Calls(Tree(s, 0), alpha, beta) == 1
  {
  }

  /**
   * With no legal move the search scores the node by the game's end:
   * +-1000 for checkmate and -+500 for stalemate, from White's side.
   */
  lemma NoMoveScores(s: GameState, depth: nat, alpha: real, beta: real)
    requires depth >= 1 && SearchDefined(s, depth) && |LegalMoveList(s)| == 0
    ensures var k := FirstIndexOf(s.squares, KingOf(s.turn));
            0 <= k < 64 && s.squares[k] == KingOf(s.turn) &&
            Value(Tree(s, depth), alpha, beta) ==
              (if InCheck(s, k) then (if s.turn == Black then 1000.0 else -1000.0)
               else (if s.turn == Black then -500.0 else 500.0)) &&
            Calls(Tree(s, depth), alpha, beta) == 1
  {
  }
}
