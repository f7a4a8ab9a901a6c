/**
 * The square-name helpers and the console move of moves_generation.h:
 * castling detection, swapping two cells, the empty-square test, reading a
 * square name such as "c3", and the in-place move on a board.
 */
module MovesGeneration {
  import opened Board

  /** The rook of a side. */
  function RookOf(t: Turn): (r: Piece)
    ensures r != Blank && IsRook(r) && PlayerOf(r) == t
  {
    if t == White then WRook else BRook
  }

  /**
   * is_castling: 1 when the side to move has its king on `from` and its own
   * rook on `to`, 0 otherwise.
   */
  function IsCastling(s: GameState, from: int, to: int): (r: int)
    requires 0 <= from < 64 && 0 <= to < 64
    ensures r == 0 || r == 1
    ensures r == 1 <==> s.squares[from] == KingOf(s.turn) && s.squares[to] == RookOf(s.turn)
  {
    if s.turn == Black then
      if s.squares[from] == BKing && s.squares[to] == BRook then 1 else 0
    else
      if s.squares[from] == WKing && s.squares[to] == WRook then 1 else 0
  }

  /** swap: exchanges two cells of a board and leaves the others alone. */
  method Swap(a: array<Piece>, i: int, j: int)
    requires 0 <= i < a.Length && 0 <= j < a.Length
    modifies a
    ensures a[..] == old(a[..])[i := old(a[j])][j := old(a[i])]
  {
    var temp := a[i];
    a[i] := a[j];
    a[j] := temp;
  }

  /** The board with two cells exchanged. */
  function Swapped(b: Squares, i: int, j: int): (r: Squares)
    requires 0 <= i < 64 && 0 <= j < 64
    ensures r[i] == b[j] && r[j] == b[i]
    ensures forall k :: 0 <= k < 64 && k != i && k != j ==> r[k] == b[k]
  {
    b[i := b[j]][j := b[i]]
  }

  /** Swapping twice restores the board. */
  lemma SwapTwice(b: Squares, i: int, j: int)
    requires 0 <= i < 64 && 0 <= j < 64
    ensures Swapped(Swapped(b, i, j), i, j) == b
  {
    var r := Swapped(Swapped(b, i, j), i, j);
    assert forall k :: 0 <= k < 64 ==> r[k] == b[k];
  }

  /** is_empty: 1 exactly when the square is BLANK. */
  function IsEmpty(s: GameState, index: int): (r: int)
    requires 0 <= index < 64
    ensures r == 0 || r == 1
    ensures r == 1 <==> s.squares[index] == Blank
  {
    if s.squares[index] == Blank then 1 else 0
  }

  /** A file letter 'a'..'h' (ASCII 97..104). */
  predicate IsFileLetter(c: char) {
    97 <= c as int <= 104
  }

  /** A rank digit '1'..'8' (ASCII 49..56). */
  predicate IsRankDigit(c: char) {
    49 <= c as int <= 56
  }

  /**
   * str_to_boardindex on a C string whose characters before the terminating
   * NUL are `square`: -1 unless the name has exactly two characters; a file
   * letter adds its offset from 'a', any other first character resets the
   * index to -1; a rank digit r then adds (8 - r) * 8, any other second
   * character resets it to -1.
   */
  function SquareIndex(square: string): (index: int)
    requires |square| >= 2
    ensures -1 <= index < 64
    ensures |square| != 2 ==> index == -1
    ensures |square| == 2 && IsFileLetter(square[0]) && IsRankDigit(square[1]) ==>
              index == (square[0] as int - 97) + (8 - (square[1] as int - 48)) * 8 && 0 <= index < 64
    ensures |square| == 2 && !IsRankDigit(square[1]) ==> index == -1
    ensures |square| == 2 && !IsFileLetter(square[0]) && IsRankDigit(square[1]) ==>
              index == -1 + (8 - (square[1] as int - 48)) * 8
  {
    if |square| != 2 then -1
    else
      var fileIndex := if IsFileLetter(square[0]) then square[0] as int - 97 else -1;
      if IsRankDigit(square[1]) then fileIndex + (8 - (square[1] as int - 48)) * 8 else -1
  }

  /** str_to_boardindex, assigning `index` step by step as the source does. */
  method StrToBoardIndex(square: string) returns (index: int)
    requires |square| >= 2
    ensures index == SquareIndex(square)
  {
    index := -1;
    if |square| == 2 {
      index := 0;
      var ascii := square[0] as int;
      if ascii >= 97 && ascii <= 104 {
        index := index + ascii - 97;
      } else {
        index := -1;
      }
      ascii := square[1] as int;
      if ascii >= 49 && ascii <= 56 {
        ascii := ascii - 48;
        index := index + (8 - ascii) * 8;
      } else {
        index := -1;
      }
    }
  }

  /** Distinct valid names read as distinct squares. */
  lemma SquareIndexInjective(a: string, b: string)
    requires |a| == 2 && IsFileLetter(a[0]) && IsRankDigit(a[1])
    requires |b| == 2 && IsFileLetter(b[0]) && IsRankDigit(b[1])
    requires SquareIndex(a) == SquareIndex(b)
    ensures a == b
  {
    var fa := a[0] as int - 97;
    var fb := b[0] as int - 97;
    var ra := 8 - (a[1] as int - 48);
    var rb := 8 - (b[1] as int - 48);
    assert fa + ra * 8 == fb + rb * 8;
    assert a[0] == b[0] && a[1] == b[1];
  }

  /** The documented example: "c3" is square 42. */
  lemma SquareIndexC3()
    ensures SquareIndex("c3") == 42
  {
  }

  /**
   * A bad file letter with a good rank does not give -1: "z1" gives
   * -1 + 7 * 8 = 55, the square h1.
   */
  lemma SquareIndexBadFile()
    ensures SquareIndex("z1") == 55
  {
  }

  /**
   * The new board after move(from, to) on a board whose side to move is
   * `turn`.  Nothing happens for an unreadable square name or an empty
   * origin; a move onto an empty square swaps the two cells; a move onto an
   * occupied square that is not castling first blanks the destination and
   * then swaps; castling is left as it is.
   */
  function AfterMove(board: Squares, turn: Turn, fromIndex: int, toIndex: int): (r: Squares)
    requires -1 <= fromIndex < 64 && -1 <= toIndex < 64
  {
    if fromIndex == -1 || toIndex == -1 || board[fromIndex] == Blank then board
    else if board[toIndex] == Blank then Swapped(board, fromIndex, toIndex)
    else if IsCastling(GameState(board, turn), fromIndex, toIndex) == 0 then
      Swapped(board[toIndex := Blank], fromIndex, toIndex)
    else board
  }

  /**
   * move: reads both square names and updates the board in place (the
   * source's global starting_state; its turn is passed in).
   */
  method Move(squares: array<Piece>, turn: Turn, from: string, to: string)
    requires squares.Length == 64 && |from| >= 2 && |to| >= 2
    modifies squares
    ensures squares[..] == AfterMove(old(squares[..]), turn, SquareIndex(from), SquareIndex(to))
  {
    var fromIndex := StrToBoardIndex(from);
    var toIndex := StrToBoardIndex(to);
    if fromIndex != -1 && toIndex != -1 && squares[fromIndex] != Blank {
      var castling := IsCastling(GameState(squares[..], turn), fromIndex, toIndex);
      if squares[toIndex] == Blank {
        Swap(squares, fromIndex, toIndex);
      } else if squares[toIndex] != Blank && castling == 0 {
        squares[toIndex] := Blank;
        Swap(squares, fromIndex, toIndex);
      } else {
      }
    }
  }

  /** A quiet move puts the piece on the destination and empties the origin. */
  lemma QuietMoveEffect(board: Squares, turn: Turn, f: int, t: int)
    requires 0 <= f < 64 && 0 <= t < 64
    requires board[f] != Blank && board[t] == Blank
    ensures var r := AfterMove(board, turn, f, t);
            r[t] == board[f] && r[f] == Blank &&
            forall k :: 0 <= k < 64 && k != f && k != t ==> r[k] == board[k]
  {
  }

  /**
   * A capture that is not castling leaves the origin empty and the mover on
   * the destination, the captured piece gone.
   */
  lemma CaptureEffect(board: Squares, turn: Turn, f: int, t: int)
    requires 0 <= f < 64 && 0 <= t < 64 && f != t
    requires board[f] != Blank && board[t] != Blank
    requires !(board[f] == KingOf(turn) && board[t] == RookOf(turn))
    ensures var r := AfterMove(board, turn, f, t);
            r[t] == board[f] && r[f] == Blank &&
            forall k :: 0 <= k < 64 && k != f && k != t ==> r[k] == board[k]
  {
  }

  /** The castling branch, an unreadable name and an empty origin change nothing. */
  lemma MoveNoEffect(board: Squares, turn: Turn, f: int, t: int)
    requires -1 <= f < 64 && -1 <= t < 64
    requires f == -1 || t == -1 || board[f] == Blank ||
             (board[t] != Blank && board[f] == KingOf(turn) && board[t] == RookOf(turn))
    ensures AfterMove(board, turn, f, t) == board
  {
  }

  /**
   * Moving a piece onto its own square takes the capture branch (the square
   * is occupied, and no king stands on a rook): the square is blanked and
   * the piece disappears.
   */
  lemma MoveOntoItselfErases(board: Squares, turn: Turn, f: int)
    requires 0 <= f < 64 && board[f] != Blank
    ensures AfterMove(board, turn, f, f) == board[f := Blank]
  {
  }
}
