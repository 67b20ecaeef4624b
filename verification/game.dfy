/**
 * The game manager: the initial record, the repetition key, the
 * insufficient-material test, the status evaluation and the move transition.
 */
module Game {
  import opened Types
  import opened Boards
  import opened Constants
  import opened Moves
  import opened SpecialMoves

  const AllRights: Rights := Rights(true, true, true, true)

  /** A fresh game: the starting layout, white to move, all rights, empty histories. */
  function InitialState(): (s: GameState)
    ensures s.board == InitialBoard() && s.turn == White && s.rights == AllRights
    ensures s.ep == None && s.halfMoveClock == 0
    ensures s.moveHistory == [] && s.positionHistory == []
    ensures s.capturedWhite == [] && s.capturedBlack == []
    ensures s.status == Playing && s.lastMove == None
  {
    GameState(InitialBoard(), White, AllRights, None, 0, [], [], [], [], Playing, None)
  }

  // ---------------------------------------------------------------------
  // Repetition key
  // ---------------------------------------------------------------------

  /** First letter of the type's name; knight and king both give 'k'. */
  function KeyLetter(t: PieceType): char
  {
    match t
    case Pawn => 'p'
    case Knight => 'k'
    case Bishop => 'b'
    case Rook => 'r'
    case Queen => 'q'
    case King => 'k'
  }

  function ColorLetter(c: Color): char
  {
    if c == White then 'w' else 'b'
  }

  /** The entry an occupied square contributes to the key. */
  function EntryOf(row: int, col: int, p: Piece): KeyEntry
  {
    KeyEntry(row, col, KeyLetter(p.kind), ColorLetter(p.color))
  }

  /** Entries of the occupied squares from (row, col) on, in row-major order. */
  function KeyEntries(b: Board, row: int, col: int): (r: seq<KeyEntry>)
    requires 0 <= row <= 8 && 0 <= col <= 8
    decreases 8 - row, 8 - col
    ensures forall e :: e in r <==> InBounds(e.row, e.col) && !Before(e.row, e.col, row, col)
                                    && b[e.row][e.col].Some? && e == EntryOf(e.row, e.col, b[e.row][e.col].value)
    ensures forall i, j | 0 <= i < j < |r| :: Before(r[i].row, r[i].col, r[j].row, r[j].col)
  {
    if row == 8 then []
    else if col == 8 then KeyEntries(b, row + 1, 0)
    else
      var rest := KeyEntries(b, row, col + 1);
      match b[row][col]
      case None => rest
      case Some(p) => [EntryOf(row, col, p)] + rest
  }

  /** The repetition key of a board with a side to move. */
  function HashBoard(b: Board, turn: Color): (k: PositionKey)
    ensures k.turn == turn
    ensures forall e :: e in k.entries <==> InBounds(e.row, e.col) && b[e.row][e.col].Some?
                                            && e == EntryOf(e.row, e.col, b[e.row][e.col].value)
  {
    PositionKey(turn, KeyEntries(b, 0, 0))
  }

  // ---------------------------------------------------------------------
  // Insufficient material
  // ---------------------------------------------------------------------

  /** A piece of `color` other than the king. */
  predicate IsMinorOrMajor(cell: Option<Piece>, color: Color)
  {
    cell.Some? && cell.value.color == color && cell.value.kind != King
  }

  /** Squares holding non-king pieces of `color` from (row, col) on, in row-major order. */
  function NonKingSquares(b: Board, color: Color, row: int, col: int): (r: seq<Pos>)
    requires 0 <= row <= 8 && 0 <= col <= 8
    decreases 8 - row, 8 - col
    ensures forall p :: p in r <==> InBounds(p.row, p.col) && !Before(p.row, p.col, row, col)
                                    && IsMinorOrMajor(b[p.row][p.col], color)
    ensures forall i, j | 0 <= i < j < |r| :: Before(r[i].row, r[i].col, r[j].row, r[j].col)
  {
    if row == 8 then []
    else if col == 8 then NonKingSquares(b, color, row + 1, 0)
    else
      var rest := NonKingSquares(b, color, row, col + 1);
      if IsMinorOrMajor(b[row][col], color) then [Pos(row, col)] + rest else rest
  }

  /** The types of the non-king pieces of `color`, in row-major order. */
  function NonKingTypes(b: Board, color: Color): (r: seq<PieceType>)
    ensures |r| == |NonKingSquares(b, color, 0, 0)|
  {
    var sq := NonKingSquares(b, color, 0, 0);
    seq(|sq|, i requires 0 <= i < |sq| => b[sq[i].row][sq[i].col].value.kind)
  }

  /** Square colour (r + c) mod 2 of the last bishop of `color` in row-major order, if any. */
  function LastBishopParity(b: Board, color: Color, row: int, col: int): (r: Option<int>)
    requires 0 <= row <= 8 && 0 <= col <= 8
    decreases 8 - row, 8 - col
  {
    if row == 8 then None
    else if col == 8 then LastBishopParity(b, color, row + 1, 0)
    else
      var rest := LastBishopParity(b, color, row, col + 1);
      if rest.Some? then rest
      else if b[row][col] == Some(Piece(Bishop, color)) then Some((row + col) % 2)
      else None
  }

  /**
   * King against king, a lone knight or bishop against a bare king, or one
   * bishop each on squares of the same colour.
   */
  function InsufficientMaterial(b: Board): bool
  {
    var w := NonKingTypes(b, White);
    var k := NonKingTypes(b, Black);
    if |w| == 0 && |k| == 0 then true
    else if |w| == 0 && |k| == 1 && (k[0] == Bishop || k[0] == Knight) then true
    else if |k| == 0 && |w| == 1 && (w[0] == Bishop || w[0] == Knight) then true
    else if |w| == 1 && |k| == 1 && w[0] == Bishop && k[0] == Bishop then
      LastBishopParity(b, White, 0, 0) == LastBishopParity(b, Black, 0, 0)
    else false
  }

  // ---------------------------------------------------------------------
  // Status
  // ---------------------------------------------------------------------

  /** The latest key occurs at least three times in the history. */
  predicate Repeated(h: seq<PositionKey>)
  {
    |h| > 0 && multiset(h)[h[|h| - 1]] >= 3
  }

  /** One of the automatic draw conditions, considered only when the side to move has a move. */
  predicate DrawByRule(s: GameState)
  {
    s.halfMoveClock >= 100 || Repeated(s.positionHistory) || InsufficientMaterial(s.board)
  }

  /**
   * The status of a record: no legal move is mate or stalemate before any
   * draw rule is considered; then the fifty-move clock, repetition and
   * insufficient material; then check.
   */
  function GameStatus(s: GameState): (r: Status)
    requires ValidEp(s.ep)
    ensures r == Checkmate <==> |AllLegalMoves(s, s.turn)| == 0 && IsInCheck(s.board, s.turn)
    ensures r == Stalemate <==> |AllLegalMoves(s, s.turn)| == 0 && !IsInCheck(s.board, s.turn)
    ensures r == Draw <==> |AllLegalMoves(s, s.turn)| > 0 && DrawByRule(s)
    ensures r == Check <==> |AllLegalMoves(s, s.turn)| > 0 && !DrawByRule(s) && IsInCheck(s.board, s.turn)
    ensures r == Playing <==> |AllLegalMoves(s, s.turn)| > 0 && !DrawByRule(s) && !IsInCheck(s.board, s.turn)
  {
    var moves := AllLegalMoves(s, s.turn);
    var inCheck := IsInCheck(s.board, s.turn);
    if |moves| == 0 then (if inCheck then Checkmate else Stalemate)
    else if s.halfMoveClock >= 100 then Draw
    else if Repeated(s.positionHistory) then Draw
    else if InsufficientMaterial(s.board) then Draw
    else if inCheck then Check
    else Playing
  }

  // ---------------------------------------------------------------------
  // The move transition
  // ---------------------------------------------------------------------

  /**
   * The moves the manager can play without failing: those the applier
   * accepts, whose double push (if any) leaves an en-passant target on the
   * board for the next status evaluation.
   */
  predicate CanMake(s: GameState, m: Move)
  {
    && Applicable(s.board, m)
    && (m.special == DoublePush ==> InBounds(VictimRow(s.board[m.fromRow][m.fromCol].value.color, m.toRow), m.toCol))
  }

  /** Apply a move and derive the next record and its status. */
  function MakeMove(s: GameState, m: Move): (r: GameState)
    requires CanMake(s, m)
    ensures ValidEp(r.ep)
    ensures r.turn == Opponent(s.turn)
    ensures r.board == ApplyMove(s, m).board && r.ep == ApplyMove(s, m).ep
    ensures RightsWithin(r.rights, s.rights)
    ensures r.rights == ApplyMove(s, m).rights && r.halfMoveClock == ApplyMove(s, m).clock
    ensures r.moveHistory == s.moveHistory + [m]
    ensures r.positionHistory == s.positionHistory + [HashBoard(r.board, r.turn)]
    ensures ApplyMove(s, m).captured == None ==> r.capturedWhite == s.capturedWhite && r.capturedBlack == s.capturedBlack
    ensures ApplyMove(s, m).captured.Some? && ApplyMove(s, m).captured.value.color == White
            ==> r.capturedWhite == s.capturedWhite + [ApplyMove(s, m).captured.value] && r.capturedBlack == s.capturedBlack
    ensures ApplyMove(s, m).captured.Some? && ApplyMove(s, m).captured.value.color == Black
            ==> r.capturedBlack == s.capturedBlack + [ApplyMove(s, m).captured.value] && r.capturedWhite == s.capturedWhite
    ensures r.lastMove == Some((Pos(m.fromRow, m.fromCol), Pos(m.toRow, m.toCol)))
    ensures r.status == GameStatus(r)
  {
    var a := ApplyMove(s, m);
    var next := Opponent(s.turn);
    var cw := if a.captured.Some? && a.captured.value.color == White then s.capturedWhite + [a.captured.value] else s.capturedWhite;
    var cb := if a.captured.Some? && a.captured.value.color == Black then s.capturedBlack + [a.captured.value] else s.capturedBlack;
    var pending := GameState(a.board, next, a.rights, a.ep, a.clock,
                             s.moveHistory + [m], s.positionHistory + [HashBoard(a.board, next)],
                             cw, cb, Playing, Some((Pos(m.fromRow, m.fromCol), Pos(m.toRow, m.toCol))));
    var r := pending.(status := GameStatus(pending));
    SameStatus(pending, r);
    r
  }

  /** Move collection reads only the board, the en-passant target and the rights. */
  lemma SameLegal(s1: GameState, s2: GameState, color: Color)
    requires s1.board == s2.board && s1.ep == s2.ep && s1.rights == s2.rights && ValidEp(s1.ep)
    ensures AllLegalMoves(s1, color) == AllLegalMoves(s2, color)
  {
    var t1, t2 := LegalTable(s1), LegalTable(s2);
    forall r | 0 <= r < 8
      ensures t1[r] == t2[r]
    {
      forall c | 0 <= c < 8
        ensures t1[r][c] == t2[r][c]
      {
        assert t1[r][c] == LegalMoves(s1, r, c) == LegalMoves(s2, r, c) == t2[r][c];
      }
    }
    assert t1 == t2;
  }

  /** The status depends on the position and the counters, not on the stored status or last move. */
  lemma SameStatus(s1: GameState, s2: GameState)
    requires s1.board == s2.board && s1.ep == s2.ep && s1.rights == s2.rights && ValidEp(s1.ep)
    requires s1.turn == s2.turn && s1.halfMoveClock == s2.halfMoveClock && s1.positionHistory == s2.positionHistory
    ensures GameStatus(s1) == GameStatus(s2)
  {
    SameLegal(s1, s2, s1.turn);
  }

  /** Play a sequence of moves; None as soon as one of them cannot be made. */
  function Play(s: GameState, ms: seq<Move>): Option<GameState>
    decreases |ms|
  {
    if ms == [] then Some(s)
    else if CanMake(s, ms[0]) then Play(MakeMove(s, ms[0]), ms[1..])
    else None
  }
}
