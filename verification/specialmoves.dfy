/**
 * The move applier: from a game record and a move, the next board, the new
 * en-passant target, the updated castling rights, the half-move clock and
 * the piece reported as captured.
 */
module SpecialMoves {
  import opened Types
  import opened Boards
  import opened Moves

  /** Everything the applier hands back to the game manager. */
  datatype Applied = Applied(board: Board, ep: Option<Pos>, rights: Rights, clock: nat, captured: Option<Piece>)

  /** Square of the pawn taken en passant: one row behind the destination, seen from the mover. */
  function VictimRow(color: Color, toRow: int): int
  {
    toRow - Forward(color)
  }

  /**
   * What the applier needs in order not to fail: origin and destination on the
   * board, a piece on the origin, and an en-passant victim square on the board.
   */
  predicate Applicable(b: Board, m: Move)
  {
    && InBounds(m.fromRow, m.fromCol) && InBounds(m.toRow, m.toCol)
    && b[m.fromRow][m.fromCol].Some?
    && (m.special == EnPassant ==> InBounds(VictimRow(b[m.fromRow][m.fromCol].value.color, m.toRow), m.toCol))
  }

  /** The promotion choice a move stands for: the one it carries, a queen when it carries none. */
  function PromotionKind(m: Move): PieceType
  {
    if m.promotion.Some? then m.promotion.value else Queen
  }

  /** The piece placed on the destination: the promoted piece or the mover itself. */
  function Placed(p: Piece, m: Move): Piece
  {
    if m.special == Promotion then Piece(PromotionKind(m), p.color) else p
  }

  /**
   * The squares a move names are pairwise distinct: origin and destination,
   * the en-passant victim, and the rook's corner and landing squares.
   */
  predicate Distinct(m: Move)
  {
    && (m.fromRow, m.fromCol) != (m.toRow, m.toCol)
    && (m.special == CastleKing ==>
          m.toCol != 5 && m.toCol != 7 && (m.fromRow, m.fromCol) != (m.toRow, 5) && (m.fromRow, m.fromCol) != (m.toRow, 7))
    && (m.special == CastleQueen ==>
          m.toCol != 3 && m.toCol != 0 && (m.fromRow, m.fromCol) != (m.toRow, 3) && (m.fromRow, m.fromCol) != (m.toRow, 0))
    && (m.special == EnPassant ==> m.fromCol != m.toCol)
  }

  /** Whether square (r, c) is one the move writes to. */
  predicate Touched(m: Move, color: Color, r: int, c: int)
  {
    || (r == m.fromRow && c == m.fromCol)
    || (r == m.toRow && c == m.toCol)
    || (m.special == EnPassant && r == VictimRow(color, m.toRow) && c == m.toCol)
    || (m.special == CastleKing && r == m.toRow && (c == 5 || c == 7))
    || (m.special == CastleQueen && r == m.toRow && (c == 3 || c == 0))
  }

  /** The board after the move: relocation, en-passant removal, rook transfer, promotion, in that order. */
  function ApplyBoard(b: Board, m: Move): (r: Board)
    requires Applicable(b, m)
    ensures forall i, j | InBounds(i, j) && !Touched(m, b[m.fromRow][m.fromCol].value.color, i, j) :: r[i][j] == b[i][j]
    ensures m.special == Promotion ==> r[m.toRow][m.toCol] == Some(Placed(b[m.fromRow][m.fromCol].value, m))
  {
    var p := b[m.fromRow][m.fromCol].value;
    var moved := Put(Put(b, m.toRow, m.toCol, Some(p)), m.fromRow, m.fromCol, None);
    var afterEp := if m.special == EnPassant then Put(moved, VictimRow(p.color, m.toRow), m.toCol, None) else moved;
    var afterRook :=
      if m.special == CastleKing then Put(Put(afterEp, m.toRow, 5, afterEp[m.toRow][7]), m.toRow, 7, None)
      else if m.special == CastleQueen then Put(Put(afterEp, m.toRow, 3, afterEp[m.toRow][0]), m.toRow, 0, None)
      else afterEp;
    if m.special == Promotion then Put(afterRook, m.toRow, m.toCol, Some(Placed(p, m))) else afterRook
  }

  /** Castling rights after the move; each flag can only be cleared. */
  function NextRights(cr: Rights, p: Piece, m: Move): (r: Rights)
    ensures r.whiteKing <==> cr.whiteKing && p != Piece(King, White)
                             && !(p.kind == Rook && m.fromRow == 7 && m.fromCol == 7)
                             && !(m.toRow == 7 && m.toCol == 7)
    ensures r.whiteQueen <==> cr.whiteQueen && p != Piece(King, White)
                              && !(p.kind == Rook && m.fromRow == 7 && m.fromCol == 0)
                              && !(m.toRow == 7 && m.toCol == 0)
    ensures r.blackKing <==> cr.blackKing && p != Piece(King, Black)
                             && !(p.kind == Rook && m.fromRow == 0 && m.fromCol == 7)
                             && !(m.toRow == 0 && m.toCol == 7)
    ensures r.blackQueen <==> cr.blackQueen && p != Piece(King, Black)
                              && !(p.kind == Rook && m.fromRow == 0 && m.fromCol == 0)
                              && !(m.toRow == 0 && m.toCol == 0)
  {
    var afterKing :=
      if p.kind == King then
        (if p.color == White then cr.(whiteKing := false, whiteQueen := false)
         else cr.(blackKing := false, blackQueen := false))
      else cr;
    assert p == Piece(King, Black) <==> p.kind == King && p.color == Black;
    var afterRook := if p.kind == Rook then ClearCorner(afterKing, m.fromRow, m.fromCol) else afterKing;
    ClearCorner(afterRook, m.toRow, m.toCol)
  }

  /** Clears the right whose rook starts on corner (row, col), if (row, col) is a corner. */
  function ClearCorner(cr: Rights, row: int, col: int): (r: Rights)
    ensures r.whiteKing <==> cr.whiteKing && !(row == 7 && col == 7)
    ensures r.whiteQueen <==> cr.whiteQueen && !(row == 7 && col == 0)
    ensures r.blackKing <==> cr.blackKing && !(row == 0 && col == 7)
    ensures r.blackQueen <==> cr.blackQueen && !(row == 0 && col == 0)
  {
    var a := if row == 7 && col == 0 then cr.(whiteQueen := false) else cr;
    var b := if row == 7 && col == 7 then a.(whiteKing := false) else a;
    var c := if row == 0 && col == 0 then b.(blackQueen := false) else b;
    if row == 0 && col == 7 then c.(blackKing := false) else c
  }

  /** Flag-wise, `r` grants no right that `cr` does not. */
  predicate RightsWithin(r: Rights, cr: Rights)
  {
    && (r.whiteKing ==> cr.whiteKing) && (r.whiteQueen ==> cr.whiteQueen)
    && (r.blackKing ==> cr.blackKing) && (r.blackQueen ==> cr.blackQueen)
  }

  /**
   * Apply a move to the game record. The result's board, en-passant target,
   * rights, clock and captured report are as described on each clause.
   */
  function ApplyMove(s: GameState, m: Move): (a: Applied)
    requires Applicable(s.board, m)
    // the destination receives the moving (or promoted) piece; the origin empties
    ensures Distinct(m) ==> a.board[m.toRow][m.toCol] == Some(Placed(s.board[m.fromRow][m.fromCol].value, m))
    ensures Distinct(m) ==> a.board[m.fromRow][m.fromCol] == None
    // en passant empties the square behind the destination
    ensures m.special == EnPassant && Distinct(m)
            ==> a.board[VictimRow(s.board[m.fromRow][m.fromCol].value.color, m.toRow)][m.toCol] == None
    // castling transfers the rook on the destination row
    ensures m.special == CastleKing && Distinct(m)
            ==> a.board[m.toRow][5] == s.board[m.toRow][7] && a.board[m.toRow][7] == None
    ensures m.special == CastleQueen && Distinct(m)
            ==> a.board[m.toRow][3] == s.board[m.toRow][0] && a.board[m.toRow][0] == None
    // nothing else changes
    ensures forall i, j | InBounds(i, j) && !Touched(m, s.board[m.fromRow][m.fromCol].value.color, i, j)
              :: a.board[i][j] == s.board[i][j]
    // the en-passant target is the skipped square of a double push, and only then set
    ensures a.ep.Some? <==> m.special == DoublePush
    ensures a.ep.Some? ==> a.ep.value == Pos(VictimRow(s.board[m.fromRow][m.fromCol].value.color, m.toRow), m.toCol)
    // rights only decrease, by the clearing rules of NextRights
    ensures RightsWithin(a.rights, s.rights)
    ensures a.rights == NextRights(s.rights, s.board[m.fromRow][m.fromCol].value, m)
    // the clock restarts on a pawn move or a capture, and otherwise counts on
    ensures a.clock == 0 <==> s.board[m.fromRow][m.fromCol].value.kind == Pawn
                               || s.board[m.toRow][m.toCol].Some? || m.special == EnPassant
    ensures a.clock != 0 ==> a.clock == s.halfMoveClock + 1
    // the captured report
    ensures m.special == EnPassant
            ==> a.captured == Some(Piece(Pawn, Opponent(s.board[m.fromRow][m.fromCol].value.color)))
    ensures m.special != EnPassant ==> a.captured == s.board[m.toRow][m.toCol]
  {
    var p := s.board[m.fromRow][m.fromCol].value;
    var captured := s.board[m.toRow][m.toCol];
    var board := ApplyBoard(s.board, m);
    var ep := if m.special == DoublePush then Some(Pos(VictimRow(p.color, m.toRow), m.toCol)) else None;
    var clock := if p.kind == Pawn || captured.Some? || m.special == EnPassant then 0 else s.halfMoveClock + 1;
    Applied(board, ep, NextRights(s.rights, p, m), clock,
            if m.special == EnPassant then Some(Piece(Pawn, Opponent(p.color))) else captured)
  }

  // ---------------------------------------------------------------------
  // The legality simulation mirrors the applier
  // ---------------------------------------------------------------------

  /** The move a generated target stands for. */
  function AsMove(row: int, col: int, t: Target, promotion: Option<PieceType>): Move
  {
    Move(row, col, t.row, t.col, t.special, promotion)
  }

  /**
   * For every move but a promotion, the board the legality filter inspects
   * is exactly the board the applier produces.
   */
  lemma SimulateIsApply(s: GameState, row: int, col: int, t: Target, promotion: Option<PieceType>)
    requires InBounds(row, col) && s.board[row][col].Some?
    requires Replayable(row, col, t, s.board[row][col].value.color)
    requires t.special != Promotion
    ensures Applicable(s.board, AsMove(row, col, t, promotion))
    ensures Simulate(s.board, row, col, t, s.board[row][col].value.color)
            == ApplyMove(s, AsMove(row, col, t, promotion)).board
  {
  }
}
