/**
 * A declarative description of the pseudo-legal and legal moves of each
 * piece, and the lemmas showing that the generators in `Moves` produce
 * exactly those targets.
 */
module MoveGenSpec {
  import opened Types
  import opened Boards
  import opened Moves
  import opened MoveSpec

  // ---------------------------------------------------------------------
  // Pawns
  // ---------------------------------------------------------------------

  /** Tag of a pawn move that lands on `toRow`: promotion on the last rank, plain otherwise. */
  function PawnTag(color: Color, toRow: int): Special
  {
    if toRow == PromoRow(color) then Promotion else Plain
  }

  /**
   * A pawn target: one step forward onto an empty square; two steps from the
   * start row across two empty squares; one step diagonally onto an enemy;
   * or the tracked en-passant square diagonally ahead.
   */
  predicate PawnSpec(b: Board, row: int, col: int, color: Color, ep: Option<Pos>, t: Target)
    requires InBounds(row, col)
  {
    var f := Forward(color);
    || (t.row == row + f && t.col == col && InBounds(t.row, t.col)
        && b[t.row][t.col].None? && t.special == PawnTag(color, t.row))
    || (row == StartRow(color) && t.row == row + 2 * f && t.col == col && t.special == DoublePush
        && b[row + f][col].None? && b[row + 2 * f][col].None?)
    || (t.row == row + f && (t.col == col - 1 || t.col == col + 1) && InBounds(t.row, t.col)
        && b[t.row][t.col].Some? && b[t.row][t.col].value.color == Opponent(color)
        && t.special == PawnTag(color, t.row))
    || (ep.Some? && t == Target(ep.value.row, ep.value.col, EnPassant)
        && row + f == ep.value.row && (col - ep.value.col == 1 || ep.value.col - col == 1))
  }

  lemma PawnMovesIff(b: Board, row: int, col: int, color: Color, ep: Option<Pos>, t: Target)
    requires InBounds(row, col) && ValidEp(ep)
    ensures t in PawnMoves(b, row, col, color, ep) <==> PawnSpec(b, row, col, color, ep, t)
  {
    PawnPushesIff(b, row, col, color, t);
    PawnCapturesIff(b, row, col, color, t);
  }

  lemma PawnPushesIff(b: Board, row: int, col: int, color: Color, t: Target)
    requires InBounds(row, col)
    ensures t in PawnPushes(b, row, col, color)
            <==> || (t.row == row + Forward(color) && t.col == col && InBounds(t.row, t.col)
                     && b[t.row][t.col].None? && t.special == PawnTag(color, t.row))
                 || (row == StartRow(color) && t.row == row + 2 * Forward(color) && t.col == col
                     && t.special == DoublePush
                     && b[row + Forward(color)][col].None? && b[row + 2 * Forward(color)][col].None?)
  {
  }

  lemma PawnCapturesIff(b: Board, row: int, col: int, color: Color, t: Target)
    requires InBounds(row, col)
    ensures t in PawnCapture(b, row, col, color, -1) + PawnCapture(b, row, col, color, 1)
            <==> t.row == row + Forward(color) && (t.col == col - 1 || t.col == col + 1) && InBounds(t.row, t.col)
                 && b[t.row][t.col].Some? && b[t.row][t.col].value.color == Opponent(color)
                 && t.special == PawnTag(color, t.row)
  {
  }

  // ---------------------------------------------------------------------
  // Knight and king steps
  // ---------------------------------------------------------------------

  /** A plain step by one of the offsets from index i on, onto a square the mover may land on. */
  lemma {:induction false} OffsetMovesIff(b: Board, row: int, col: int, color: Color,
                                          offsets: seq<(int, int)>, i: nat, t: Target)
    requires i <= |offsets|
    decreases |offsets| - i
    ensures t in OffsetMoves(b, row, col, color, offsets, i)
            <==> t.special == Plain && InBounds(t.row, t.col) && CanLand(b, t.row, t.col, color)
                 && (t.row - row, t.col - col) in offsets[i..]
  {
    if i < |offsets| {
      OffsetMovesIff(b, row, col, color, offsets, i + 1, t);
      assert offsets[i..] == [offsets[i]] + offsets[i + 1..];
    }
  }

  /** A knight's (or king's) step onto a square of the board that is empty or holds an enemy. */
  predicate StepSpec(b: Board, row: int, col: int, color: Color, knight: bool, t: Target)
  {
    t.special == Plain && InBounds(t.row, t.col) && CanLand(b, t.row, t.col, color)
    && Step(knight, t.row - row, t.col - col)
  }

  lemma StepMovesIff(b: Board, row: int, col: int, color: Color, knight: bool, t: Target)
    ensures t in OffsetMoves(b, row, col, color, StepOffsets(knight), 0) <==> StepSpec(b, row, col, color, knight, t)
  {
    OffsetMovesIff(b, row, col, color, StepOffsets(knight), 0, t);
    assert StepOffsets(knight)[0..] == StepOffsets(knight);
    StepOffsetsExact(knight, t.row - row, t.col - col);
  }

  // ---------------------------------------------------------------------
  // Sliding pieces
  // ---------------------------------------------------------------------

  /**
   * `t` is the square k steps along the ray, every square from distance i
   * up to it is empty, and it is itself empty or holds an enemy.
   */
  predicate RayReach(b: Board, row: int, col: int, dr: int, dc: int, i: int, k: int, color: Color, t: Target)
  {
    && i <= k < 8
    && t.row == Along(row, dr, k) && t.col == Along(col, dc, k)
    && InBounds(t.row, t.col)
    && RayClear(b, row, col, dr, dc, i, k)
    && CanLand(b, t.row, t.col, color)
  }

  /**
   * The ray generator yields exactly the squares up to and including the
   * first occupied one, that one only when it holds an enemy.
   */
  lemma {:induction false} RayMovesIff(b: Board, row: int, col: int, dr: int, dc: int, i: int,
                                       color: Color, t: Target)
    requires 1 <= i
    decreases 8 - i
    ensures t in RayMoves(b, row, col, dr, dc, i, color)
            <==> t.special == Plain && exists k :: RayReach(b, row, col, dr, dc, i, k, color, t)
  {
    if i >= 8 {
    } else {
      var r := Along(row, dr, i);
      var c := Along(col, dc, i);
      if !InBounds(r, c) {
        forall k
          ensures !RayReach(b, row, col, dr, dc, i, k, color, t)
        {
          assert RayReach(b, row, col, dr, dc, i, k, color, t) && k > i ==> EmptyOnRay(b, row, col, dr, dc, i);
        }
      } else if b[r][c].None? {
        RayMovesIff(b, row, col, dr, dc, i + 1, color, t);
        if t in RayMoves(b, row, col, dr, dc, i, color) && t != Target(r, c, Plain) {
          var k :| RayReach(b, row, col, dr, dc, i + 1, k, color, t);
          assert EmptyOnRay(b, row, col, dr, dc, i);
          assert RayReach(b, row, col, dr, dc, i, k, color, t);
        }
        if t == Target(r, c, Plain) {
          assert RayReach(b, row, col, dr, dc, i, i, color, t);
        }
        if t.special == Plain && exists k :: RayReach(b, row, col, dr, dc, i, k, color, t) {
          var k :| RayReach(b, row, col, dr, dc, i, k, color, t);
          if k > i {
            assert RayReach(b, row, col, dr, dc, i + 1, k, color, t);
          }
        }
      } else {
        if t.special == Plain && exists k :: RayReach(b, row, col, dr, dc, i, k, color, t) {
          var k :| RayReach(b, row, col, dr, dc, i, k, color, t);
          assert k > i ==> EmptyOnRay(b, row, col, dr, dc, i);
        }
        if t in RayMoves(b, row, col, dr, dc, i, color) {
          assert RayReach(b, row, col, dr, dc, i, i, color, t);
        }
      }
    }
  }

  /** A plain move along one of `dirs` that reaches `t` over empty squares. */
  predicate SliderSpec(b: Board, row: int, col: int, dirs: seq<(int, int)>, color: Color, t: Target)
  {
    t.special == Plain && exists d, k | d in dirs && 1 <= k < 8 :: RayReach(b, row, col, d.0, d.1, 1, k, color, t)
  }

  lemma {:induction false} SlidingMovesFrom(b: Board, row: int, col: int, dirs: seq<(int, int)>, j: nat,
                                            color: Color, t: Target)
    requires j <= |dirs|
    decreases |dirs| - j
    ensures t in SlidingMoves(b, row, col, dirs, j, color) <==> SliderSpec(b, row, col, dirs[j..], color, t)
  {
    if j < |dirs| {
      SlidingMovesFrom(b, row, col, dirs, j + 1, color, t);
      RayMovesIff(b, row, col, dirs[j].0, dirs[j].1, 1, color, t);
      assert dirs[j..] == [dirs[j]] + dirs[j + 1..];
      if SliderSpec(b, row, col, dirs[j..], color, t) {
        var d, k :| d in dirs[j..] && RayReach(b, row, col, d.0, d.1, 1, k, color, t);
        if d != dirs[j] {
          assert d in dirs[j + 1..];
        }
      }
    }
  }

  lemma SlidingMovesIff(b: Board, row: int, col: int, dirs: seq<(int, int)>, color: Color, t: Target)
    ensures t in SlidingMoves(b, row, col, dirs, 0, color) <==> SliderSpec(b, row, col, dirs, color, t)
  {
    SlidingMovesFrom(b, row, col, dirs, 0, color, t);
    assert dirs[0..] == dirs;
  }

  /** The queen's moves are exactly the bishop's together with the rook's. */
  lemma QueenIsBishopPlusRook(b: Board, row: int, col: int, color: Color, t: Target)
    ensures SliderSpec(b, row, col, QueenDirs, color, t)
            <==> SliderSpec(b, row, col, Diagonals, color, t) || SliderSpec(b, row, col, Straights, color, t)
  {
    if SliderSpec(b, row, col, QueenDirs, color, t) {
      var d, k :| d in QueenDirs && RayReach(b, row, col, d.0, d.1, 1, k, color, t);
      assert d in Diagonals || d in Straights;
    }
  }

  // ---------------------------------------------------------------------
  // Castling
  // ---------------------------------------------------------------------

  /** The king's start, transit and landing squares on `row` are not attacked by `opp` (reference definition). */
  predicate PathUnattacked(b: Board, row: int, c1: int, c2: int, c3: int, opp: Color)
  {
    !Attacked(b, row, c1, opp) && !Attacked(b, row, c2, opp) && !Attacked(b, row, c3, opp)
  }

  /**
   * Castling: the king on (base row, 4), the side's flag, the squares
   * between king and rook empty, and the king's start, transit and landing
   * squares not attacked.
   */
  predicate CastleSpec(b: Board, row: int, col: int, color: Color, rights: Rights, t: Target)
  {
    var opp := Opponent(color);
    row == BaseRow(color) && col == 4
    && (|| (t == Target(row, 6, CastleKing) && KingSideRight(rights, color)
            && b[row][5].None? && b[row][6].None? && PathUnattacked(b, row, 4, 5, 6, opp))
        || (t == Target(row, 2, CastleQueen) && QueenSideRight(rights, color)
            && b[row][1].None? && b[row][2].None? && b[row][3].None? && PathUnattacked(b, row, 4, 3, 2, opp)))
  }

  lemma PathUnattackedIff(b: Board, row: int, c1: int, c2: int, c3: int, opp: Color)
    ensures PathUnattacked(b, row, c1, c2, c3, opp)
            <==> !IsSquareAttacked(b, row, c1, opp) && !IsSquareAttacked(b, row, c2, opp)
                 && !IsSquareAttacked(b, row, c3, opp)
  {
    IsSquareAttackedIff(b, row, c1, opp);
    IsSquareAttackedIff(b, row, c2, opp);
    IsSquareAttackedIff(b, row, c3, opp);
  }

  lemma CastlingMovesIff(b: Board, row: int, col: int, color: Color, rights: Rights, t: Target)
    ensures t in CastlingMoves(b, row, col, color, rights) <==> CastleSpec(b, row, col, color, rights, t)
  {
    var opp := Opponent(color);
    PathUnattackedIff(b, BaseRow(color), 4, 5, 6, opp);
    PathUnattackedIff(b, BaseRow(color), 4, 3, 2, opp);
  }

  // ---------------------------------------------------------------------
  // Every piece
  // ---------------------------------------------------------------------

  /** Reference definition of the pseudo-legal targets of whatever stands on (row, col). */
  predicate PseudoLegal(b: Board, row: int, col: int, ep: Option<Pos>, rights: Rights, t: Target)
    requires InBounds(row, col)
  {
    match b[row][col]
    case None => false
    case Some(p) =>
      match p.kind
      case Pawn => PawnSpec(b, row, col, p.color, ep, t)
      case Knight => StepSpec(b, row, col, p.color, true, t)
      case Bishop => SliderSpec(b, row, col, Diagonals, p.color, t)
      case Rook => SliderSpec(b, row, col, Straights, p.color, t)
      case Queen => SliderSpec(b, row, col, Diagonals, p.color, t) || SliderSpec(b, row, col, Straights, p.color, t)
      case King => StepSpec(b, row, col, p.color, false, t) || CastleSpec(b, row, col, p.color, rights, t)
  }

  lemma RawMovesIff(b: Board, row: int, col: int, ep: Option<Pos>, rights: Rights, t: Target)
    requires InBounds(row, col) && ValidEp(ep)
    ensures t in RawMoves(b, row, col, ep, rights) <==> PseudoLegal(b, row, col, ep, rights, t)
  {
    match b[row][col]
    case None =>
    case Some(p) =>
      match p.kind
      case Pawn => PawnMovesIff(b, row, col, p.color, ep, t);
      case Knight => StepMovesIff(b, row, col, p.color, true, t);
      case Bishop => SlidingMovesIff(b, row, col, Diagonals, p.color, t);
      case Rook => SlidingMovesIff(b, row, col, Straights, p.color, t);
      case Queen =>
        SlidingMovesIff(b, row, col, QueenDirs, p.color, t);
        QueenIsBishopPlusRook(b, row, col, p.color, t);
      case King =>
        StepMovesIff(b, row, col, p.color, false, t);
        CastlingMovesIff(b, row, col, p.color, rights, t);
  }

  // ---------------------------------------------------------------------
  // Consequences for single move kinds
  // ---------------------------------------------------------------------

  /** A double push comes only from a pawn on its start row, across two empty squares. */
  lemma DoublePushOnlyFromStart(b: Board, row: int, col: int, ep: Option<Pos>, rights: Rights, t: Target)
    requires InBounds(row, col) && ValidEp(ep)
    requires t in RawMoves(b, row, col, ep, rights) && t.special == DoublePush
    ensures b[row][col].Some? && b[row][col].value.kind == Pawn
    ensures row == StartRow(b[row][col].value.color)
    ensures t.col == col && t.row == row + 2 * Forward(b[row][col].value.color)
    ensures b[row + Forward(b[row][col].value.color)][col].None? && b[t.row][col].None?
  {
    RawMovesIff(b, row, col, ep, rights, t);
  }

  /**
   * A pawn push or capture onto the last rank is tagged as a promotion, and
   * only such moves are.
   */
  lemma PromotionTagExact(b: Board, row: int, col: int, ep: Option<Pos>, rights: Rights, t: Target)
    requires InBounds(row, col) && ValidEp(ep)
    requires b[row][col].Some? && b[row][col].value.kind == Pawn
    requires t in RawMoves(b, row, col, ep, rights)
    ensures t.row == PromoRow(b[row][col].value.color) ==> t.special != Plain
    ensures t.special == Promotion <==> t.row == PromoRow(b[row][col].value.color) && t.special != EnPassant
  {
    RawMovesIff(b, row, col, ep, rights, t);
  }

  /** A castling target needs the king at home, the flag, empty in-between squares and no attacked transit square. */
  lemma CastleRequirements(b: Board, row: int, col: int, ep: Option<Pos>, rights: Rights, t: Target)
    requires InBounds(row, col) && ValidEp(ep)
    requires t in RawMoves(b, row, col, ep, rights)
    requires t.special == CastleKing || t.special == CastleQueen
    ensures b[row][col].Some? && b[row][col].value.kind == King
    ensures CastleSpec(b, row, col, b[row][col].value.color, rights, t)
  {
    RawMovesIff(b, row, col, ep, rights, t);
  }

  // ---------------------------------------------------------------------
  // Legal moves
  // ---------------------------------------------------------------------

  /** The mover's king (the first found) is not attacked on the board the filter replays. */
  predicate KingSafeAfter(b: Board, row: int, col: int, t: Target, color: Color)
    requires Replayable(row, col, t, color)
  {
    var sim := Simulate(b, row, col, t, color);
    match FindKing(sim, color)
    case None => true
    case Some(k) => !Attacked(sim, k.row, k.col, Opponent(color))
  }

  /**
   * The legal targets of a square are exactly its pseudo-legal targets after
   * which the mover's king is not attacked.
   */
  lemma LegalMovesIff(s: GameState, row: int, col: int, t: Target)
    requires ValidEp(s.ep)
    ensures t in LegalMoves(s, row, col)
            <==> InBounds(row, col) && s.board[row][col].Some?
                 && PseudoLegal(s.board, row, col, s.ep, s.rights, t)
                 && Replayable(row, col, t, s.board[row][col].value.color)
                 && KingSafeAfter(s.board, row, col, t, s.board[row][col].value.color)
  {
    if InBounds(row, col) && s.board[row][col].Some? {
      var color := s.board[row][col].value.color;
      RawMovesIff(s.board, row, col, s.ep, s.rights, t);
      RawReplayable(s.board, row, col, s.ep, s.rights);
      if Replayable(row, col, t, color) {
        var sim := Simulate(s.board, row, col, t, color);
        match FindKing(sim, color)
        case None =>
        case Some(k) => IsSquareAttackedIff(sim, k.row, k.col, Opponent(color));
      }
    }
  }

  /** Collected moves from square (row, col) on in row-major order. */
  lemma {:induction false} CollectIff(b: Board, color: Color, table: seq<seq<seq<Target>>>, row: int, col: int, m: Move)
    requires 0 <= row <= 8 && 0 <= col <= 8 && IsTable(table)
    decreases 8 - row, 8 - col
    ensures m in Collect(b, color, table, row, col)
            <==> InBounds(m.fromRow, m.fromCol) && !Before(m.fromRow, m.fromCol, row, col)
                 && b[m.fromRow][m.fromCol].Some? && b[m.fromRow][m.fromCol].value.color == color
                 && m.promotion == None
                 && Target(m.toRow, m.toCol, m.special) in table[m.fromRow][m.fromCol]
  {
    if row == 8 {
    } else if col == 8 {
      CollectIff(b, color, table, row + 1, 0, m);
    } else {
      CollectIff(b, color, table, row, col + 1, m);
      var here := if b[row][col].Some? && b[row][col].value.color == color
                  then Lift(row, col, table[row][col]) else [];
      assert Collect(b, color, table, row, col) == here + Collect(b, color, table, row, col + 1);
      if m in here {
        var i :| 0 <= i < |here| && here[i] == m;
      }
      if m.fromRow == row && m.fromCol == col && m.promotion == None
         && b[row][col].Some? && b[row][col].value.color == color
         && Target(m.toRow, m.toCol, m.special) in table[row][col] {
        var ts := table[row][col];
        var i :| 0 <= i < |ts| && ts[i] == Target(m.toRow, m.toCol, m.special);
        assert here[i] == m;
      }
    }
  }

  /**
   * A move is collected for `color` exactly when its origin holds a piece of
   * that colour, it carries no promotion choice, and its destination and tag
   * form a legal target of that piece.
   */
  lemma AllLegalIff(s: GameState, color: Color, m: Move)
    requires ValidEp(s.ep)
    ensures m in AllLegalMoves(s, color)
            <==> InBounds(m.fromRow, m.fromCol)
                 && s.board[m.fromRow][m.fromCol].Some? && s.board[m.fromRow][m.fromCol].value.color == color
                 && m.promotion == None
                 && Target(m.toRow, m.toCol, m.special) in LegalMoves(s, m.fromRow, m.fromCol)
  {
    CollectIff(s.board, color, LegalTable(s), 0, 0, m);
    if InBounds(m.fromRow, m.fromCol) {
      LegalTableAt(s, m.fromRow, m.fromCol);
    }
  }

  lemma LegalTableAt(s: GameState, row: int, col: int)
    requires ValidEp(s.ep) && InBounds(row, col)
    ensures LegalTable(s)[row][col] == LegalMoves(s, row, col)
  {
  }

  /** Every collected move has an in-bounds destination. */
  lemma AllLegalInBounds(s: GameState, color: Color, m: Move)
    requires ValidEp(s.ep)
    requires m in AllLegalMoves(s, color)
    ensures InBounds(m.fromRow, m.fromCol) && InBounds(m.toRow, m.toCol)
    ensures s.board[m.fromRow][m.fromCol].Some? && s.board[m.fromRow][m.fromCol].value.color == color
  {
    AllLegalIff(s, color, m);
  }
}
