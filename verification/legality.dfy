/**
 * The legality filter judges a move on a replayed board. These lemmas show
 * that the replay agrees with the applier: the boards are equal for every
 * move but a promotion, and for a promotion they differ only in the type of
 * the mover's own piece on the destination, which no check test can see.
 */
module Legality {
  import opened Types
  import opened Boards
  import opened Moves
  import opened MoveSpec
  import opened MoveGenSpec
  import opened SpecialMoves
  import opened Game

  /**
   * Two boards with the same occupancy that agree on every piece of
   * `byColor` (the attacker).
   */
  predicate SameForAttacker(b1: Board, b2: Board, byColor: Color)
  {
    forall r, c | 0 <= r < 8 && 0 <= c < 8 :: AgreeForAttacker(b1[r][c], b2[r][c], byColor)
  }

  predicate AgreeForAttacker(x: Option<Piece>, y: Option<Piece>, byColor: Color)
  {
    && (x.Some? <==> y.Some?)
    && (x.Some? && x.value.color == byColor ==> y == x)
    && (y.Some? && y.value.color == byColor ==> y == x)
  }

  lemma RaySame(b1: Board, b2: Board, row: int, col: int, dr: int, dc: int, k: int, kind: PieceType, byColor: Color)
    requires SameForAttacker(b1, b2, byColor)
    ensures RayHit(b1, row, col, dr, dc, k, kind, byColor) <==> RayHit(b2, row, col, dr, dc, k, kind, byColor)
    ensures RayClear(b1, row, col, dr, dc, 1, k) <==> RayClear(b2, row, col, dr, dc, 1, k)
  {
    forall j
      ensures EmptyOnRay(b1, row, col, dr, dc, j) <==> EmptyOnRay(b2, row, col, dr, dc, j)
    {
      var r, c := Along(row, dr, j), Along(col, dc, j);
      if InBounds(r, c) {
        assert AgreeForAttacker(b1[r][c], b2[r][c], byColor);
      }
    }
    var r, c := Along(row, dr, k), Along(col, dc, k);
    if InBounds(r, c) {
      assert AgreeForAttacker(b1[r][c], b2[r][c], byColor);
    }
  }

  lemma SliderSame(b1: Board, b2: Board, row: int, col: int, dirs: seq<(int, int)>, kind: PieceType, byColor: Color)
    requires SameForAttacker(b1, b2, byColor)
    ensures SliderOnLine(b1, row, col, dirs, kind, byColor) <==> SliderOnLine(b2, row, col, dirs, kind, byColor)
  {
    forall d: (int, int), k: int
      ensures RayHit(b1, row, col, d.0, d.1, k, kind, byColor) <==> RayHit(b2, row, col, d.0, d.1, k, kind, byColor)
      ensures RayClear(b1, row, col, d.0, d.1, 1, k) <==> RayClear(b2, row, col, d.0, d.1, 1, k)
    {
      RaySame(b1, b2, row, col, d.0, d.1, k, kind, byColor);
    }
  }

  /** Whether a square is attacked by `byColor` depends only on occupancy and on `byColor`'s pieces. */
  lemma AttackedSame(b1: Board, b2: Board, row: int, col: int, byColor: Color)
    requires SameForAttacker(b1, b2, byColor)
    ensures Attacked(b1, row, col, byColor) <==> Attacked(b2, row, col, byColor)
  {
    forall r, c, k | 0 <= r < 8 && 0 <= c < 8
      ensures b1[r][c] == Some(Piece(k, byColor)) <==> b2[r][c] == Some(Piece(k, byColor))
    {
      assert AgreeForAttacker(b1[r][c], b2[r][c], byColor);
    }
    SliderSame(b1, b2, row, col, Diagonals, Bishop, byColor);
    SliderSame(b1, b2, row, col, Straights, Rook, byColor);
  }

  /** Boards with the same kings of `color` have the same king search result. */
  lemma FindKingSame(b1: Board, b2: Board, color: Color)
    requires forall r, c | 0 <= r < 8 && 0 <= c < 8 :: IsKingOf(b1[r][c], color) <==> IsKingOf(b2[r][c], color)
    ensures FindKing(b1, color) == FindKing(b2, color)
  {
    var k1, k2 := FindKing(b1, color), FindKing(b2, color);
    if k1.Some? && k2.Some? {
      assert !Before(k1.value.row, k1.value.col, k2.value.row, k2.value.col);
      assert !Before(k2.value.row, k2.value.col, k1.value.row, k1.value.col);
    }
  }

  /** The check test agrees on two boards with the same kings of `color` and the same attackers. */
  lemma InCheckSame(b1: Board, b2: Board, color: Color)
    requires SameForAttacker(b1, b2, Opponent(color))
    requires forall r, c | 0 <= r < 8 && 0 <= c < 8 :: IsKingOf(b1[r][c], color) <==> IsKingOf(b2[r][c], color)
    ensures IsInCheck(b1, color) <==> IsInCheck(b2, color)
  {
    FindKingSame(b1, b2, color);
    match FindKing(b1, color)
    case None =>
    case Some(k) =>
      IsSquareAttackedIff(b1, k.row, k.col, Opponent(color));
      IsSquareAttackedIff(b2, k.row, k.col, Opponent(color));
      AttackedSame(b1, b2, k.row, k.col, Opponent(color));
  }

  /**
   * The verdict of the legality filter is the verdict on the applier's
   * board: a kept move leaves the mover's king unattacked after it is
   * actually played, whatever non-king promotion piece is chosen, and a
   * rejected move leaves it attacked.
   */
  lemma SafeIffAppliedSafe(s: GameState, row: int, col: int, t: Target, promotion: Option<PieceType>)
    requires InBounds(row, col) && s.board[row][col].Some? && s.board[row][col].value.kind != King
    requires Replayable(row, col, t, s.board[row][col].value.color)
    requires t.special == Promotion ==> t.row != row
    requires promotion != Some(King)
    ensures Applicable(s.board, AsMove(row, col, t, promotion))
    ensures Safe(s.board, row, col, t, s.board[row][col].value.color)
            <==> !IsInCheck(ApplyMove(s, AsMove(row, col, t, promotion)).board, s.board[row][col].value.color)
  {
    var color := s.board[row][col].value.color;
    if t.special != Promotion {
      SimulateIsApply(s, row, col, t, promotion);
    } else {
      var m := AsMove(row, col, t, promotion);
      var sim := Simulate(s.board, row, col, t, color);
      var app := ApplyMove(s, m).board;
      forall r, c | 0 <= r < 8 && 0 <= c < 8
        ensures AgreeForAttacker(sim[r][c], app[r][c], Opponent(color))
        ensures IsKingOf(sim[r][c], color) <==> IsKingOf(app[r][c], color)
      {
        if (r, c) != (t.row, t.col) {
          assert sim[r][c] == app[r][c];
        }
      }
      InCheckSame(sim, app, color);
    }
  }

  /** What the filter guarantees about a legal target. */
  lemma LegalIsSafeRaw(s: GameState, row: int, col: int, t: Target)
    requires ValidEp(s.ep)
    requires t in LegalMoves(s, row, col)
    ensures InBounds(row, col) && s.board[row][col].Some?
    ensures t in RawMoves(s.board, row, col, s.ep, s.rights)
    ensures Replayable(row, col, t, s.board[row][col].value.color)
    ensures Safe(s.board, row, col, t, s.board[row][col].value.color)
  {
    RawReplayable(s.board, row, col, s.ep, s.rights);
  }

  /** Only a pawn's one-step advance or capture carries the promotion tag. */
  lemma PromotionFromPawn(b: Board, row: int, col: int, ep: Option<Pos>, rights: Rights, t: Target)
    requires InBounds(row, col) && ValidEp(ep)
    requires t in RawMoves(b, row, col, ep, rights) && t.special == Promotion
    ensures b[row][col].Some? && b[row][col].value.kind == Pawn
    ensures t.row == row + Forward(b[row][col].value.color)
  {
    RawMovesIff(b, row, col, ep, rights, t);
  }

  /** Every legal target, once played, leaves the mover's king unattacked. */
  lemma LegalMoveLeavesKingSafe(s: GameState, row: int, col: int, t: Target, promotion: Option<PieceType>)
    requires ValidEp(s.ep)
    requires t in LegalMoves(s, row, col)
    requires promotion != Some(King)
    ensures InBounds(row, col) && s.board[row][col].Some?
    ensures Applicable(s.board, AsMove(row, col, t, promotion))
    ensures !IsInCheck(ApplyMove(s, AsMove(row, col, t, promotion)).board, s.board[row][col].value.color)
  {
    LegalIsSafeRaw(s, row, col, t);
    if t.special == Promotion {
      PromotionFromPawn(s.board, row, col, s.ep, s.rights, t);
      SafeIffAppliedSafe(s, row, col, t, promotion);
    } else {
      SimulateIsApply(s, row, col, t, promotion);
    }
  }

  /**
   * A generated double push leaves behind an en-passant target that is on
   * the board, lies between origin and destination, and is empty.
   */
  lemma DoublePushTargetWellFormed(s: GameState, row: int, col: int, t: Target, promotion: Option<PieceType>)
    requires InBounds(row, col) && ValidEp(s.ep)
    requires t in RawMoves(s.board, row, col, s.ep, s.rights) && t.special == DoublePush
    ensures s.board[row][col].Some? && Applicable(s.board, AsMove(row, col, t, promotion))
    ensures ApplyMove(s, AsMove(row, col, t, promotion)).ep == Some(Pos(row + Forward(s.board[row][col].value.color), col))
    ensures ValidEp(ApplyMove(s, AsMove(row, col, t, promotion)).ep)
    ensures ApplyMove(s, AsMove(row, col, t, promotion)).board[row + Forward(s.board[row][col].value.color)][col].None?
  {
    DoublePushOnlyFromStart(s.board, row, col, s.ep, s.rights, t);
  }

  /**
   * Every collected legal move, with any promotion choice but a king, can be
   * handed to the game manager.
   */
  lemma LegalCanMake(s: GameState, color: Color, m: Move, promotion: Option<PieceType>)
    requires ValidEp(s.ep) && m in AllLegalMoves(s, color) && promotion != Some(King)
    ensures CanMake(s, m.(promotion := promotion))
  {
    AllLegalIff(s, color, m);
    var t := Target(m.toRow, m.toCol, m.special);
    LegalMoveLeavesKingSafe(s, m.fromRow, m.fromCol, t, promotion);
    assert AsMove(m.fromRow, m.fromCol, t, promotion) == m.(promotion := promotion);
    if m.special == DoublePush {
      LegalIsSafeRaw(s, m.fromRow, m.fromCol, t);
      DoublePushTargetWellFormed(s, m.fromRow, m.fromCol, t, promotion);
    }
  }
}
