/**
 * The position of board.h: 64 squares holding values of the PIECES enum and
 * the side to move, the starting configuration, the PLACES square names, and
 * read_state, the parser of the piece-placement field of a FEN string.
 */
module Board {

  datatype Option<T> = None | Some(value: T)

  /** A value of the PIECES enum: white pieces 0..5, black 6..11, BLANK 12. */
  type Piece = p: int | 0 <= p <= 12

  const WRook: Piece := 0
  const WKnight: Piece := 1
  const WBishop: Piece := 2
  const WKing: Piece := 3
  const WQueen: Piece := 4
  const WPawn: Piece := 5
  const BRook: Piece := 6
  const BKnight: Piece := 7
  const BBishop: Piece := 8
  const BKing: Piece := 9
  const BQueen: Piece := 10
  const BPawn: Piece := 11
  const Blank: Piece := 12

  /** A value of the TURNS enum. */
  type Turn = t: int | 0 <= t <= 1

  const White: Turn := 0
  const Black: Turn := 1

  /** The 64 squares, index 0 = a8 (top left) to 63 = h1 (bottom right). */
  type Squares = b: seq<Piece> | |b| == 64 witness seq(64, _ => 12)

  /** game_state, as a value: the squares and the side to move. */
  datatype GameState = GameState(squares: Squares, turn: Turn)

  // The piece helpers below are not part of board.h; they are defined from
  // the enum: a piece below 6 is White's, 6..11 Black's, BLANK nobody's.

  /** The side that owns a (non-blank) piece. */
  function PlayerOf(p: Piece): (t: Turn)
    requires p != Blank
    ensures t == White <==> p < 6
  {
    if p < 6 then White else Black
  }

  /** get_opponent */
  function Opponent(t: Turn): (r: Turn)
    ensures r != t
  {
    1 - t
  }

  /** are_two_pieces_same_player: both are pieces of one side. */
  predicate SamePlayer(a: Piece, b: Piece) {
    a != Blank && b != Blank && PlayerOf(a) == PlayerOf(b)
  }

  /** are_two_pieces_different_player: both are pieces, of opposite sides. */
  predicate DifferentPlayer(a: Piece, b: Piece) {
    a != Blank && b != Blank && PlayerOf(a) != PlayerOf(b)
  }

  predicate IsRook(p: Piece) { p == WRook || p == BRook }
  predicate IsKnight(p: Piece) { p == WKnight || p == BKnight }
  predicate IsBishop(p: Piece) { p == WBishop || p == BBishop }
  predicate IsKing(p: Piece) { p == WKing || p == BKing }
  predicate IsQueen(p: Piece) { p == WQueen || p == BQueen }
  predicate IsPawn(p: Piece) { p == WPawn || p == BPawn }

  /** The king of a side. */
  function KingOf(t: Turn): (k: Piece)
    ensures k != Blank && IsKing(k) && PlayerOf(k) == t
  {
    if t == White then WKing else BKing
  }

  /** Rank 8 of board_starting_config, a8 to h8. */
  const BlackBackRank: seq<Piece> := [BRook, BKnight, BBishop, BQueen, BKing, BBishop, BKnight, BRook]

  /** Rank 1 of board_starting_config, a1 to h1. */
  const WhiteBackRank: seq<Piece> := [WRook, WKnight, WBishop, WQueen, WKing, WBishop, WKnight, WRook]

  /** n BLANK squares. */
  function Blanks(n: nat): (r: seq<Piece>)
    ensures |r| == n && forall i :: 0 <= i < n ==> r[i] == Blank
  {
    seq(n, _ => Blank)
  }

  /** board_starting_config: black pieces on ranks 8 and 7, white on ranks 2 and 1. */
  const BoardStartingConfig: Squares :=
    BlackBackRank + seq(8, _ => BPawn) + Blanks(32) + seq(8, _ => WPawn) + WhiteBackRank

  /** starting_state */
  const StartingState: GameState := GameState(BoardStartingConfig, White)

  /**
   * The PLACES enum: the square on file `file` (0 = a .. 7 = h) and rank
   * `rank` (1..8); A8 = 0, H8 = 7, ..., A1 = 56, H1 = 63.
   */
  function Place(file: int, rank: int): (r: int)
    requires 0 <= file < 8 && 1 <= rank <= 8
    ensures 0 <= r < 64 && r % 8 == file && r / 8 == 8 - rank
  {
    (8 - rank) * 8 + file
  }

  const E1: int := Place(4, 1)
  const E8: int := Place(4, 8)

  /** The starting state has White to move, one white king on e1 and one black king on e8. */
  lemma StartingKings()
    ensures StartingState.turn == White && StartingState.squares == BoardStartingConfig
    ensures E1 == 60 && E8 == 4
    ensures forall i :: 0 <= i < 64 ==> (BoardStartingConfig[i] == WKing <==> i == E1)
    ensures forall i :: 0 <= i < 64 ==> (BoardStartingConfig[i] == BKing <==> i == E8)
  {
  }

  /**
   * test_fenstring_1: the standard starting position
   * "rnbqkbnr/pppppppp/8/8/8/8/PPPPPPPP/RNBQKBNR w KQkq - 0 1", written as
   * the concatenation of its ranks so that its characters can be looked up.
   */
  const TestFenString1: string :=
    "rnbqkbnr" + "/pppppppp" + "/8/8/8/8" + "/PPPPPPPP" + "/RNBQKBNR" + " w KQkq - 0 1"

  /** The switch of read_state: the piece a FEN letter stands for, if any. */
  function PieceForLetter(c: char): (r: Option<Piece>)
    ensures r.Some? ==> 65 <= c as int <= 122
    ensures r.Some? ==> r.value != Blank && (PlayerOf(r.value) == White <==> 'A' <= c <= 'Z')
  {
    match c
    case 'r' => Some(BRook)
    case 'n' => Some(BKnight)
    case 'b' => Some(BBishop)
    case 'k' => Some(BKing)
    case 'q' => Some(BQueen)
    case 'p' => Some(BPawn)
    case 'R' => Some(WRook)
    case 'N' => Some(WKnight)
    case 'B' => Some(WBishop)
    case 'K' => Some(WKing)
    case 'Q' => Some(WQueen)
    case 'P' => Some(WPawn)
    case _ => None
  }

  /** What read_state does with a FEN string. */
  datatype Placement =
    | Placed(board: seq<Piece>)          // returns 1 with these 64 squares written
    | UnknownPiece(written: seq<Piece>)  // returns -1 with these first squares written
    | Undefined                          // reads past the string or writes past square 63

  /**
   * The loop of read_state from string position k, with the squares `written`
   * filled so far: a digit 1..8 writes that many BLANKs, a letter of the
   * switch writes its piece, any other character in 65..122 ends the parse
   * with -1, and every other character is skipped.
   */
  function ScanPlacement(fen: string, k: nat, written: seq<Piece>): (r: Placement)
    requires |written| <= 64
    ensures r.Placed? ==> |r.board| == 64 && written <= r.board
    ensures r.UnknownPiece? ==> written <= r.written && |r.written| < 64
    decreases |fen| - k
  {
    if |written| == 64 then Placed(written)
    else if k >= |fen| then Undefined
    else
      var token := fen[k];
      if '1' <= token <= '8' then
        var blanks := token as int - '0' as int;
        if |written| + blanks > 64 then Undefined
        else ScanPlacement(fen, k + 1, written + Blanks(blanks))
      else if 65 <= token as int <= 122 then
        match PieceForLetter(token)
        case Some(p) => ScanPlacement(fen, k + 1, written + [p])
        case None => UnknownPiece(written)
      else ScanPlacement(fen, k + 1, written)
  }

  /** The placement of a whole FEN string. */
  function ParsePlacement(fen: string): Placement {
    ScanPlacement(fen, 0, [])
  }

  /**
   * The scan stops as soon as the 64th square is written (or an unknown
   * letter is met), so nothing after that point of the string is read: the
   * side to move, castling, en passant and move-number fields are ignored.
   */
  lemma {:induction false} ScanIgnoresRest(fen: string, rest: string, k: nat, written: seq<Piece>)
    requires |written| <= 64
    requires !ScanPlacement(fen, k, written).Undefined?
    ensures ScanPlacement(fen + rest, k, written) == ScanPlacement(fen, k, written)
    decreases |fen| - k
  {
    if |written| < 64 {
      assert (fen + rest)[k] == fen[k];
      var token := fen[k];
      if '1' <= token <= '8' {
        var blanks := token as int - '0' as int;
        ScanIgnoresRest(fen, rest, k + 1, written + Blanks(blanks));
      } else if 65 <= token as int <= 122 {
        match PieceForLetter(token)
        case Some(p) => ScanIgnoresRest(fen, rest, k + 1, written + [p]);
        case None =>
      } else {
        ScanIgnoresRest(fen, rest, k + 1, written);
      }
    }
  }

  /** A digit d in 1..8 writes d BLANK squares and moves on by one character. */
  lemma ScanDigit(fen: string, k: nat, written: seq<Piece>)
    requires k < |fen| && |written| < 64 && '1' <= fen[k] <= '8'
    requires |written| + (fen[k] as int - '0' as int) <= 64
    ensures var d := fen[k] as int - '0' as int;
            ScanPlacement(fen, k, written) == ScanPlacement(fen, k + 1, written + Blanks(d)) &&
            |written + Blanks(d)| == |written| + d
  {
  }

  /** A letter in 65..122 outside the switch ends the parse with -1, the squares written so far kept. */
  lemma ScanUnknown(fen: string, k: nat, written: seq<Piece>)
    requires k < |fen| && |written| < 64 && 65 <= fen[k] as int <= 122 && PieceForLetter(fen[k]).None?
    ensures ScanPlacement(fen, k, written) == UnknownPiece(written)
  {
  }

  /** A character that is neither a digit 1..8 nor in 65..122 is skipped without writing. */
  lemma ScanSkip(fen: string, k: nat, written: seq<Piece>)
    requires k < |fen| && |written| < 64
    requires !('1' <= fen[k] <= '8') && !(65 <= fen[k] as int <= 122)
    ensures ScanPlacement(fen, k, written) == ScanPlacement(fen, k + 1, written)
  {
  }

  /** A piece letter writes its piece on the next square. */
  lemma {:induction false} ScanLetter(fen: string, k: nat, written: seq<Piece>)
    requires k < |fen| && |written| < 64 && PieceForLetter(fen[k]).Some?
    ensures ScanPlacement(fen, k, written) ==
            ScanPlacement(fen, k + 1, written + [PieceForLetter(fen[k]).value])
  {
  }

  /** A run of piece letters standing for the pieces `w` writes `w`, one square each. */
  lemma {:induction false} ScanLetters(fen: string, k: nat, written: seq<Piece>, w: seq<Piece>)
    requires k + |w| <= |fen| && |written| + |w| <= 64
    requires forall i :: 0 <= i < |w| ==> PieceForLetter(fen[k + i]) == Some(w[i])
    ensures ScanPlacement(fen, k, written) == ScanPlacement(fen, k + |w|, written + w)
    decreases |w|
  {
    if w == [] {
      assert written + w == written;
    } else {
      assert PieceForLetter(fen[k + 0]) == Some(w[0]);
      ScanLetter(fen, k, written);
      forall i | 0 <= i < |w[1..]|
        ensures PieceForLetter(fen[k + 1 + i]) == Some(w[1..][i])
      {
        assert PieceForLetter(fen[k + (i + 1)]) == Some(w[i + 1]);
      }
      ScanLetters(fen, k + 1, written + [w[0]], w[1..]);
      assert written + [w[0]] + w[1..] == written + w;
    }
  }

  /** Eight letters, one per square of a rank, spelled out for ScanLetters. */
  lemma {:induction false} LettersMatch(fen: string, k: nat, w: seq<Piece>)
    requires |w| == 8 && k + 8 <= |fen|
    requires PieceForLetter(fen[k]) == Some(w[0]) && PieceForLetter(fen[k + 1]) == Some(w[1]) &&
             PieceForLetter(fen[k + 2]) == Some(w[2]) && PieceForLetter(fen[k + 3]) == Some(w[3]) &&
             PieceForLetter(fen[k + 4]) == Some(w[4]) && PieceForLetter(fen[k + 5]) == Some(w[5]) &&
             PieceForLetter(fen[k + 6]) == Some(w[6]) && PieceForLetter(fen[k + 7]) == Some(w[7])
    ensures forall i :: 0 <= i < |w| ==> PieceForLetter(fen[k + i]) == Some(w[i])
  {
    forall i | 0 <= i < 8
      ensures PieceForLetter(fen[k + i]) == Some(w[i])
    {
      if i == 0 {} else if i == 1 {} else if i == 2 {} else if i == 3 {}
      else if i == 4 {} else if i == 5 {} else if i == 6 {} else {}
    }
  }

  /** A rank separator '/' is skipped. */
  lemma {:induction false} ScanSeparator(fen: string, k: nat, written: seq<Piece>)
    requires k < |fen| && |written| < 64 && fen[k] == '/'
    ensures ScanPlacement(fen, k, written) == ScanPlacement(fen, k + 1, written)
  {
  }

  /** A rank separator '/' is skipped; a digit d writes d BLANKs. */
  lemma {:induction false} ScanSeparatorThenDigit(fen: string, k: nat, written: seq<Piece>)
    requires k + 2 <= |fen| && |written| + 8 <= 64
    requires fen[k] == '/' && fen[k + 1] == '8'
    ensures ScanPlacement(fen, k, written) == ScanPlacement(fen, k + 2, written + Blanks(8))
  {
  }

  /** Parsing test_fenstring_1 gives exactly board_starting_config. */
  lemma ParseTestFen1()
    ensures ParsePlacement(TestFenString1) == Placed(BoardStartingConfig)
  {
    var f := TestFenString1;
    var w1 := BlackBackRank;
    var w2 := w1 + seq(8, _ => BPawn);
    var w6 := w2 + Blanks(32);
    var w7 := w6 + seq(8, _ => WPawn);
    assert f[0..8] == "rnbqkbnr";
    assert f[8] == '/' && f[9..17] == "pppppppp";
    assert f[17..25] == "/8/8/8/8";
    assert f[25] == '/' && f[26..34] == "PPPPPPPP";
    assert f[34] == '/' && f[35..43] == "RNBQKBNR";
    FenRank8(f);
    FenRank7(f, w1);
    FenEmptyRanks(f, w2);
    FenRank2(f, w6);
    FenRank1(f, w7);
  }

  /** The eighth rank "rnbqkbnr" writes the black back rank. */
  lemma {:induction false} FenRank8(f: string)
    requires |f| >= 8 && f[0..8] == "rnbqkbnr"
    ensures ScanPlacement(f, 0, []) == ScanPlacement(f, 8, BlackBackRank)
  {
    assert f[0] == 'r' && f[1] == 'n' && f[2] == 'b' && f[3] == 'q';
    assert f[4] == 'k' && f[5] == 'b' && f[6] == 'n' && f[7] == 'r';
    LettersMatch(f, 0, BlackBackRank);
    ScanLetters(f, 0, [], BlackBackRank);
    assert [] + BlackBackRank == BlackBackRank;
  }

  /** "/pppppppp" writes eight black pawns. */
  lemma {:induction false} FenRank7(f: string, w: seq<Piece>)
    requires |f| >= 17 && f[8] == '/' && f[9..17] == "pppppppp" && |w| == 8
    ensures ScanPlacement(f, 8, w) == ScanPlacement(f, 17, w + seq(8, _ => BPawn))
  {
    ScanSeparator(f, 8, w);
    assert f[9] == 'p' && f[10] == 'p' && f[11] == 'p' && f[12] == 'p';
    assert f[13] == 'p' && f[14] == 'p' && f[15] == 'p' && f[16] == 'p';
    LettersMatch(f, 9, seq(8, _ => BPawn));
    ScanLetters(f, 9, w, seq(8, _ => BPawn));
  }

  /** "/8/8/8/8" writes four empty ranks. */
  lemma {:induction false} FenEmptyRanks(f: string, w: seq<Piece>)
    requires |f| >= 25 && f[17..25] == "/8/8/8/8" && |w| == 16
    ensures ScanPlacement(f, 17, w) == ScanPlacement(f, 25, w + Blanks(32))
  {
    assert f[17] == '/' && f[18] == '8' && f[19] == '/' && f[20] == '8';
    assert f[21] == '/' && f[22] == '8' && f[23] == '/' && f[24] == '8';
    ScanSeparatorThenDigit(f, 17, w);
    ScanSeparatorThenDigit(f, 19, w + Blanks(8));
    ScanSeparatorThenDigit(f, 21, w + Blanks(8) + Blanks(8));
    ScanSeparatorThenDigit(f, 23, w + Blanks(8) + Blanks(8) + Blanks(8));
    assert w + Blanks(8) + Blanks(8) + Blanks(8) + Blanks(8) == w + Blanks(32);
  }

  /** "/PPPPPPPP" writes eight white pawns. */
  lemma {:induction false} FenRank2(f: string, w: seq<Piece>)
    requires |f| >= 34 && f[25] == '/' && f[26..34] == "PPPPPPPP" && |w| == 48
    ensures ScanPlacement(f, 25, w) == ScanPlacement(f, 34, w + seq(8, _ => WPawn))
  {
    ScanSeparator(f, 25, w);
    assert f[26] == 'P' && f[27] == 'P' && f[28] == 'P' && f[29] == 'P';
    assert f[30] == 'P' && f[31] == 'P' && f[32] == 'P' && f[33] == 'P';
    LettersMatch(f, 26, seq(8, _ => WPawn));
    ScanLetters(f, 26, w, seq(8, _ => WPawn));
  }

  /** "/RNBQKBNR" writes the white back rank, and the 64th square ends the scan. */
  lemma {:induction false} FenRank1(f: string, w: seq<Piece>)
    requires |f| >= 43 && f[34] == '/' && f[35..43] == "RNBQKBNR" && |w| == 56
    ensures ScanPlacement(f, 34, w) == Placed(w + WhiteBackRank)
  {
    ScanSeparator(f, 34, w);
    assert f[35] == 'R' && f[36] == 'N' && f[37] == 'B' && f[38] == 'Q';
    assert f[39] == 'K' && f[40] == 'B' && f[41] == 'N' && f[42] == 'R';
    LettersMatch(f, 35, WhiteBackRank);
    ScanLetters(f, 35, w, WhiteBackRank);
  }

  /**
   * read_state: fills `squares` (the array state->squares points to) from
   * the placement field of `fen` and returns 1, or returns -1 at the first
   * unknown letter, leaving the squares written up to there.  The side to
   * move is not part of what it receives, so it is never changed.
   */
  method ReadState(squares: array<Piece>, fen: string) returns (status: int)
    requires squares.Length == 64
    requires !ParsePlacement(fen).Undefined?
    modifies squares
    ensures status == 1 || status == -1
    ensures status == 1 <==> ParsePlacement(fen).Placed?
    ensures status == 1 ==> squares[..] == ParsePlacement(fen).board
    ensures status == -1 ==>
              var w := ParsePlacement(fen).written;
              squares[..|w|] == w && squares[|w|..] == old(squares[|w|..])
  {
    var boardIndex := 0;
    var stringIndex := 0;
    while boardIndex < 64
      invariant 0 <= boardIndex <= 64
      invariant ScanPlacement(fen, stringIndex, squares[..boardIndex]) == ParsePlacement(fen)
      invariant forall i :: boardIndex <= i < 64 ==> squares[i] == old(squares[i])
      decreases |fen| - stringIndex
    {
      var token := fen[stringIndex];
      ghost var before := squares[..boardIndex];
      if '1' <= token <= '8' {
        var blankSpaces := token as int - 48;
        var j := 0;
        while j < blankSpaces
          invariant 0 <= j <= blankSpaces
          invariant boardIndex == |before| + j
          invariant squares[..boardIndex] == before + Blanks(j)
          invariant forall i :: boardIndex <= i < 64 ==> squares[i] == old(squares[i])
        {
          squares[boardIndex] := Blank;
          assert squares[..boardIndex + 1] == before + Blanks(j + 1);
          boardIndex := boardIndex + 1;
          j := j + 1;
        }
        assert ScanPlacement(fen, stringIndex, before)
            == ScanPlacement(fen, stringIndex + 1, before + Blanks(blankSpaces));
      } else if 65 <= token as int <= 122 {
        var pieceType: Piece;
        match PieceForLetter(token) {
          case Some(p) =>
            pieceType := p;
          case None =>
            return -1;
        }
        squares[boardIndex] := pieceType;
        assert squares[..boardIndex + 1] == before + [pieceType];
        assert ScanPlacement(fen, stringIndex, before)
            == ScanPlacement(fen, stringIndex + 1, before + [pieceType]);
        boardIndex := boardIndex + 1;
      } else {
        assert ScanPlacement(fen, stringIndex, before) == ScanPlacement(fen, stringIndex + 1, before);
      }
      stringIndex := stringIndex + 1;
    }
    assert squares[..] == squares[..boardIndex];
    return 1;
  }
}
