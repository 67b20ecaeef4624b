/**
 * Properties of the notation over whole positions: the check suffix, what
 * the move reader may return, the uniqueness of the SAN of the candidates
 * the reader tries, and the round trip from a move to its SAN and back.
 */
module SanProofs {
  import opened Types
  import opened Boards
  import opened Moves
  import opened SpecialMoves
  import opened Game
  import opened MoveGenSpec
  import opened Legality
  import opened Text
  import opened Notation

  // ---------------------------------------------------------------------
  // The characters of a SAN text
  // ---------------------------------------------------------------------

  /** Letters, digits and the signs SAN uses. */
  predicate SanChar(c: char)
  {
    ('a' <= c <= 'z') || ('A' <= c <= 'Z') || ('0' <= c <= '9') || c == '+' || c == '#' || c == '=' || c == '-'
  }

  /** A rendered SAN text starts and ends with a letter, a digit or a mark sign. */
  lemma RenderEdges(shape: SanShape, mark: Mark)
    requires WellFormed(shape)
    ensures |Render(shape, mark)| > 0
    ensures SanChar(Render(shape, mark)[0])
    ensures SanChar(Render(shape, mark)[|Render(shape, mark)| - 1])
  {
    var body := BodyText(shape);
    var t := Render(shape, mark);
    BodyEnd(shape);
    assert t[0] == body[0];
    match shape
    case Castle(_) =>
    case PawnSan(f, r, c, p) =>
      if p.Some? {
        assert body[|body| - 1] == PieceLetter(p.value)[|PieceLetter(p.value)| - 1];
      }
    case PieceSan(k, q, cap, r, c) =>
      assert body[0] == PieceLetter(k)[0];
    if mark == NoMark {
      assert t == body;
    }
  }

  /** Cleaning leaves a rendered SAN text unchanged. */
  lemma CleanRender(shape: SanShape, mark: Mark)
    requires WellFormed(shape)
    ensures Clean(Render(shape, mark)) == Render(shape, mark)
  {
    var t := Render(shape, mark);
    RenderEdges(shape, mark);
    SanCharNotSpace(t[0]);
    SanCharNotSpace(t[|t| - 1]);
    TrimNoop(t);
    assert StripAnnotations(t) == t;
  }

  lemma SanCharNotSpace(c: char)
    requires SanChar(c)
    ensures !IsSpace(c) && c != '?' && c != '!'
  {
  }

  /** The SAN of a move whose origin holds a piece is the rendering of its shape and mark. */
  lemma MoveToSanRenders(s: GameState, m: Move)
    requires ValidEp(s.ep) && CanMake(s, m)
    ensures MoveToSan(s, m) == Render(Shape(s, m), MarkOf(s, m))
  {
  }

  /** The reader's cleaning leaves a generated SAN text unchanged. */
  lemma CleanSan(s: GameState, m: Move)
    requires ValidEp(s.ep) && CanMake(s, m)
    ensures Clean(MoveToSan(s, m)) == MoveToSan(s, m)
  {
    MoveToSanRenders(s, m);
    CleanRender(Shape(s, m), MarkOf(s, m));
  }

  // ---------------------------------------------------------------------
  // The check suffix
  // ---------------------------------------------------------------------

  /** The last character of a rendering is '#' exactly for a mate mark and '+' exactly for a check mark. */
  lemma RenderMark(shape: SanShape, mark: Mark)
    requires WellFormed(shape)
    ensures |Render(shape, mark)| > 0
    ensures Render(shape, mark)[|Render(shape, mark)| - 1] == '#' <==> mark == MateMark
    ensures Render(shape, mark)[|Render(shape, mark)| - 1] == '+' <==> mark == CheckMark
  {
    BodyEnd(shape);
    if mark == NoMark {
      assert Render(shape, mark) == BodyText(shape);
    }
  }

  /**
   * The SAN of a move ends in '#' exactly when the position it leads to is
   * checkmate, and in '+' exactly when it is check (section 8.2.3.5 of the
   * PGN standard).
   */
  lemma MoveToSanMark(s: GameState, m: Move)
    requires ValidEp(s.ep) && CanMake(s, m)
    ensures |MoveToSan(s, m)| > 0
    ensures MoveToSan(s, m)[|MoveToSan(s, m)| - 1] == '#' <==> MakeMove(s, Submitted(m)).status == Checkmate
    ensures MoveToSan(s, m)[|MoveToSan(s, m)| - 1] == '+' <==> MakeMove(s, Submitted(m)).status == Check
  {
    MoveToSanRenders(s, m);
    RenderMark(Shape(s, m), MarkOf(s, m));
  }

  // ---------------------------------------------------------------------
  // What the reader returns
  // ---------------------------------------------------------------------

  /**
   * The reader returns nothing for empty text, and otherwise either nothing
   * or a promotion-expanded legal move of the side to move: one whose SAN is
   * the cleaned text, or, for coordinate text, one the coordinates select.
   */
  lemma SanToMoveSound(s: GameState, san: string)
    requires ValidEp(s.ep)
    ensures san == [] ==> SanToMove(s, san) == None
    ensures SanToMove(s, san).Some? ==>
              var m := SanToMove(s, san).value;
              && m in Expand(AllLegalMoves(s, s.turn))
              && SanReady(s, m) && CanMake(s, m)
              && (|| MoveToSan(s, m) == Clean(san)
                  || (CoordinateForm(Clean(san))
                      && CoordinateMatch(m, CoordinateSquares(Clean(san)).0, CoordinateSquares(Clean(san)).1,
                                         WantedPromotion(Clean(san)))))
  {
    if san != [] {
      var cleaned := Clean(san);
      var candidates := Expand(AllLegalMoves(s, s.turn));
      ExpandReady(s, s.turn);
      FirstBySanFound(s, candidates, cleaned);
      if FirstBySan(s, candidates, cleaned).None? && CoordinateForm(cleaned) {
        var (from, to) := CoordinateSquares(cleaned);
        var r := FirstByCoordinates(candidates, from, to, WantedPromotion(cleaned));
        if r.Some? {
          var i :| 0 <= i < |candidates| && candidates[i] == r.value
                   && CoordinateMatch(candidates[i], from, to, WantedPromotion(cleaned));
        }
      }
    }
  }

  // ---------------------------------------------------------------------
  // Uniqueness of generated SAN
  // ---------------------------------------------------------------------

  /** An en-passant target, when there is one, names an empty square, as it does after every legal double push. */
  predicate EpSquareEmpty(s: GameState)
    requires ValidEp(s.ep)
  {
    s.ep.Some? ==> s.board[s.ep.value.row][s.ep.value.col].None?
  }

  /** The initial position has no en-passant target. */
  lemma InitialEpSquareEmpty()
    ensures ValidEp(InitialState().ep) && EpSquareEmpty(InitialState())
  {
  }

  /**
   * Every legal move of the side to move leaves an empty en-passant square:
   * a double push names the square it passed over, and every other move
   * names none.
   */
  lemma MakeMoveKeepsEpSquareEmpty(s: GameState, x: Move)
    requires ValidEp(s.ep) && x in Expand(AllLegalMoves(s, s.turn))
    ensures CanMake(s, x) && EpSquareEmpty(MakeMove(s, x))
  {
    ExpandReady(s, s.turn);
    ApplyKeepsEpSquareEmpty(s, x);
  }

  /** The board and en-passant target after a candidate: the target, if any, is an empty square. */
  lemma ApplyKeepsEpSquareEmpty(s: GameState, x: Move)
    requires ValidEp(s.ep) && x in Expand(AllLegalMoves(s, s.turn))
    ensures Applicable(s.board, x)
    ensures var a := ApplyMove(s, x); ValidEp(a.ep) && (a.ep.Some? ==> a.board[a.ep.value.row][a.ep.value.col].None?)
  {
    CandidateFacts(s, x);
    if x.special == DoublePush {
      DoublePushEpEmpty(s, x);
    }
  }

  /** A legal double push leaves its en-passant target empty. */
  lemma DoublePushEpEmpty(s: GameState, x: Move)
    requires ValidEp(s.ep) && x.special == DoublePush && InBounds(x.fromRow, x.fromCol)
    requires x.(promotion := None) in AllLegalMoves(s, s.turn)
    ensures Applicable(s.board, x)
    ensures var a := ApplyMove(s, x); ValidEp(a.ep) && a.ep.Some? && a.board[a.ep.value.row][a.ep.value.col].None?
  {
    var m := x.(promotion := None);
    var t := Target(x.toRow, x.toCol, x.special);
    AllLegalIff(s, s.turn, m);
    LegalIsSafeRaw(s, x.fromRow, x.fromCol, t);
    DoublePushTargetWellFormed(s, x.fromRow, x.fromCol, t, x.promotion);
    assert AsMove(x.fromRow, x.fromCol, t, x.promotion) == x;
  }

  /**
   * A candidate of the reader is a legal target of a piece of the side to
   * move, carrying a promotion choice exactly when it promotes.
   */
  lemma CandidateFacts(s: GameState, x: Move)
    requires ValidEp(s.ep) && x in Expand(AllLegalMoves(s, s.turn))
    ensures InBounds(x.fromRow, x.fromCol) && InBounds(x.toRow, x.toCol)
    ensures s.board[x.fromRow][x.fromCol].Some? && s.board[x.fromRow][x.fromCol].value.color == s.turn
    ensures x.(promotion := None) in AllLegalMoves(s, s.turn)
    ensures PseudoLegal(s.board, x.fromRow, x.fromCol, s.ep, s.rights, Target(x.toRow, x.toCol, x.special))
    ensures x.special == Promotion ==> x.promotion.Some? && x.promotion.value in PromotionChoices
    ensures x.special != Promotion ==> x.promotion == None
  {
    var ms := AllLegalMoves(s, s.turn);
    ExpandIff(ms, x);
    var i :| 0 <= i < |ms| && ExpandsTo(ms[i], x);
    var m := ms[i];
    AllLegalIff(s, s.turn, m);
    assert m == x.(promotion := None);
    var t := Target(x.toRow, x.toCol, x.special);
    LegalIsSafeRaw(s, m.fromRow, m.fromCol, t);
    RawMovesIff(s.board, m.fromRow, m.fromCol, s.ep, s.rights, t);
    AllLegalInBounds(s, s.turn, m);
  }

  /** Only a king castles; every non-pawn move other than castling is untagged. */
  lemma SpecialByKind(b: Board, row: int, col: int, ep: Option<Pos>, rights: Rights, t: Target)
    requires InBounds(row, col) && PseudoLegal(b, row, col, ep, rights, t)
    ensures b[row][col].Some?
    ensures t.special == CastleKing || t.special == CastleQueen
            ==> b[row][col].value.kind == King && CastleSpec(b, row, col, b[row][col].value.color, rights, t)
    ensures b[row][col].value.kind != Pawn && t.special != CastleKing && t.special != CastleQueen
            ==> t.special == Plain
    ensures b[row][col].value.kind == Pawn ==> PawnSpec(b, row, col, b[row][col].value.color, ep, t)
  {
  }

  /** Two candidates castling to the same side are the same move. */
  lemma CastleUnique(s: GameState, x: Move, y: Move)
    requires ValidEp(s.ep) && x in Expand(AllLegalMoves(s, s.turn)) && y in Expand(AllLegalMoves(s, s.turn))
    requires x.special == y.special && (x.special == CastleKing || x.special == CastleQueen)
    ensures x == y
  {
    CandidateFacts(s, x);
    CandidateFacts(s, y);
    SpecialByKind(s.board, x.fromRow, x.fromCol, s.ep, s.rights, Target(x.toRow, x.toCol, x.special));
    SpecialByKind(s.board, y.fromRow, y.fromCol, s.ep, s.rights, Target(y.toRow, y.toCol, y.special));
  }

  /**
   * Two pawn candidates with the same destination, the same capture file (or
   * none) and the same promotion choice (or none) are the same move. A push
   * cannot be confused with a double push because the double push passes
   * over the pusher's square; a capture cannot be confused with en passant
   * because the en-passant square is empty.
   */
  lemma PawnUnique(s: GameState, x: Move, y: Move)
    requires ValidEp(s.ep) && EpSquareEmpty(s)
    requires x in Expand(AllLegalMoves(s, s.turn)) && y in Expand(AllLegalMoves(s, s.turn))
    requires InBounds(x.fromRow, x.fromCol) && InBounds(y.fromRow, y.fromCol)
    requires s.board[x.fromRow][x.fromCol].Some? && s.board[x.fromRow][x.fromCol].value.kind == Pawn
    requires s.board[y.fromRow][y.fromCol].Some? && s.board[y.fromRow][y.fromCol].value.kind == Pawn
    requires x.toRow == y.toRow && x.toCol == y.toCol && InBounds(x.toRow, x.toCol)
    requires IsCapture(s.board, x) == IsCapture(s.board, y)
    requires IsCapture(s.board, x) ==> x.fromCol == y.fromCol
    requires (x.special == Promotion) == (y.special == Promotion)
    requires x.special == Promotion ==> PromotionKind(x) == PromotionKind(y)
    ensures x == y
  {
    CandidateFacts(s, x);
    CandidateFacts(s, y);
    var tx := Target(x.toRow, x.toCol, x.special);
    var ty := Target(y.toRow, y.toCol, y.special);
    SpecialByKind(s.board, x.fromRow, x.fromCol, s.ep, s.rights, tx);
    SpecialByKind(s.board, y.fromRow, y.fromCol, s.ep, s.rights, ty);
    PawnTargetsUnique(s.board, s.ep, s.turn, x.fromRow, x.fromCol, tx, y.fromRow, y.fromCol, ty);
    assert x.promotion == y.promotion;
  }

  /**
   * Two pawns of one colour reaching the same square, both capturing from
   * the same file or both not capturing, stand on the same square and make
   * the same kind of move, when the en-passant square is empty.
   */
  lemma PawnTargetsUnique(b: Board, ep: Option<Pos>, color: Color,
                          r1: int, c1: int, t1: Target, r2: int, c2: int, t2: Target)
    requires ValidEp(ep) && (ep.Some? ==> b[ep.value.row][ep.value.col].None?)
    requires InBounds(r1, c1) && InBounds(r2, c2) && b[r1][c1].Some? && b[r2][c2].Some?
    requires PawnSpec(b, r1, c1, color, ep, t1) && PawnSpec(b, r2, c2, color, ep, t2)
    requires t1.row == t2.row && t1.col == t2.col && InBounds(t1.row, t1.col)
    requires (b[t1.row][t1.col].Some? || t1.special == EnPassant) == (b[t2.row][t2.col].Some? || t2.special == EnPassant)
    requires b[t1.row][t1.col].Some? || t1.special == EnPassant ==> c1 == c2
    ensures r1 == r2 && c1 == c2 && t1.special == t2.special
  {
    var f := Forward(color);
    if b[t1.row][t1.col].Some? {
      assert t1.row == r1 + f && t1.special == PawnTag(color, t1.row);
      assert t2.row == r2 + f && t2.special == PawnTag(color, t2.row);
    } else if t1.special == EnPassant {
      assert t1.row == r1 + f;
      assert t2.special == EnPassant;
      assert t2.row == r2 + f;
    } else {
      PushesUnique(b, color, r1, c1, t1, r2, c2, t2);
    }
  }

  /** Two pawn pushes of one colour to the same empty square start from the same square. */
  lemma PushesUnique(b: Board, color: Color, r1: int, c1: int, t1: Target, r2: int, c2: int, t2: Target)
    requires InBounds(r1, c1) && InBounds(r2, c2) && b[r1][c1].Some? && b[r2][c2].Some?
    requires t1.row == t2.row && t1.col == t2.col && InBounds(t1.row, t1.col)
    requires t1.special != EnPassant && t2.special != EnPassant
    requires PushSpec(b, r1, c1, color, t1) && PushSpec(b, r2, c2, color, t2)
    ensures r1 == r2 && c1 == c2 && t1.special == t2.special
  {
  }

  /** The forward moves of PawnSpec. */
  predicate PushSpec(b: Board, row: int, col: int, color: Color, t: Target)
    requires InBounds(row, col)
  {
    var f := Forward(color);
    || (t.row == row + f && t.col == col && t.special == PawnTag(color, t.row))
    || (row == StartRow(color) && t.row == row + 2 * f && t.col == col && t.special == DoublePush
        && b[row + f][col].None?)
  }

  /**
   * The qualifier of a piece move separates it from each rival: when `y`
   * is among the rivals of `x`, the two moves come from different squares
   * and `y`'s own qualifier names its own file, rank or square, the two
   * qualifiers differ.
   */
  lemma QualifyDistinct(r1: seq<Move>, x: Move, r2: seq<Move>, y: Move)
    requires y in r1 && (x.fromRow != y.fromRow || x.fromCol != y.fromCol)
    ensures Qualify(r1, x) != Qualify(r2, y)
  {
    var i :| 0 <= i < |r1| && r1[i] == y;
    if x.fromCol == y.fromCol {
      assert SharesFile(r1, x.fromCol);
    }
    if x.fromRow == y.fromRow {
      assert SharesRank(r1, x.fromRow);
    }
  }

  /**
   * Two candidates moving pieces of one type to the same square with the
   * same qualifier are the same move.
   */
  lemma PieceUnique(s: GameState, x: Move, y: Move)
    requires ValidEp(s.ep)
    requires x in Expand(AllLegalMoves(s, s.turn)) && y in Expand(AllLegalMoves(s, s.turn))
    requires InBounds(x.fromRow, x.fromCol) && InBounds(y.fromRow, y.fromCol)
    requires s.board[x.fromRow][x.fromCol].Some? && s.board[x.fromRow][x.fromCol] == s.board[y.fromRow][y.fromCol]
    requires s.board[x.fromRow][x.fromCol].value.kind != Pawn
    requires x.special != CastleKing && x.special != CastleQueen && y.special != CastleKing && y.special != CastleQueen
    requires x.toRow == y.toRow && x.toCol == y.toCol
    requires Qualify(Rivals(s, s.board[x.fromRow][x.fromCol].value, x), x)
             == Qualify(Rivals(s, s.board[y.fromRow][y.fromCol].value, y), y)
    ensures x == y
  {
    var p := s.board[x.fromRow][x.fromCol].value;
    CandidateFacts(s, x);
    CandidateFacts(s, y);
    SpecialByKind(s.board, x.fromRow, x.fromCol, s.ep, s.rights, Target(x.toRow, x.toCol, x.special));
    SpecialByKind(s.board, y.fromRow, y.fromCol, s.ep, s.rights, Target(y.toRow, y.toCol, y.special));
    if x.fromRow != y.fromRow || x.fromCol != y.fromCol {
      assert y == y.(promotion := None);
      assert IsRival(s.board, p.kind, x, y);
      assert y in Rivals(s, p, x);
      QualifyDistinct(Rivals(s, p, x), x, Rivals(s, p, y), y);
    }
  }

  /** Two moves with the same SAN have the same shape. */
  lemma SameSanSameShape(s: GameState, x: Move, y: Move)
    requires ValidEp(s.ep) && CanMake(s, x) && CanMake(s, y)
    requires MoveToSan(s, x) == MoveToSan(s, y)
    ensures Shape(s, x) == Shape(s, y)
  {
    MoveToSanReadsBack(s, x);
    MoveToSanReadsBack(s, y);
  }

  /** Two candidates with the same shape are the same move. */
  lemma ShapeInjective(s: GameState, x: Move, y: Move)
    requires ValidEp(s.ep) && EpSquareEmpty(s)
    requires x in Expand(AllLegalMoves(s, s.turn)) && y in Expand(AllLegalMoves(s, s.turn))
    requires CanMake(s, x) && CanMake(s, y)
    requires Shape(s, x) == Shape(s, y)
    ensures x == y
  {
    CandidateFacts(s, x);
    CandidateFacts(s, y);
    var sx, sy := Shape(s, x), Shape(s, y);
    var px, py := s.board[x.fromRow][x.fromCol].value, s.board[y.fromRow][y.fromCol].value;
    if x.special == CastleKing || x.special == CastleQueen {
      CastleUnique(s, x, y);
    } else if px.kind == Pawn {
      assert sx.PawnSan?;
      PawnUnique(s, x, y);
    } else {
      assert sx.PieceSan? && sy.PieceSan?;
      assert px == py;
      PieceUnique(s, x, y);
    }
  }

  /**
   * Generated SAN is unique among the candidates the reader tries: two
   * candidates with the same SAN are the same move.
   */
  lemma SanInjective(s: GameState, x: Move, y: Move)
    requires ValidEp(s.ep) && EpSquareEmpty(s)
    requires x in Expand(AllLegalMoves(s, s.turn)) && y in Expand(AllLegalMoves(s, s.turn))
    requires SanReady(s, x) && SanReady(s, y) && MoveToSan(s, x) == MoveToSan(s, y)
    ensures x == y
  {
    ExpandReady(s, s.turn);
    SameSanSameShape(s, x, y);
    ShapeInjective(s, x, y);
  }

  // ---------------------------------------------------------------------
  // The round trip
  // ---------------------------------------------------------------------

  /**
   * Reading the SAN of a legal move of the side to move, with its promotion
   * choice set when it promotes, gives the move back.
   */
  lemma SanRoundTrip(s: GameState, x: Move)
    requires ValidEp(s.ep) && EpSquareEmpty(s)
    requires x in Expand(AllLegalMoves(s, s.turn))
    ensures SanReady(s, x) && SanToMove(s, MoveToSan(s, x)) == Some(x)
  {
    var candidates := Expand(AllLegalMoves(s, s.turn));
    ExpandReady(s, s.turn);
    CandidateFacts(s, x);
    var san := MoveToSan(s, x);
    CleanSan(s, x);
    SanUniqueAmong(s, x);
    FirstBySanUnique(s, candidates, san, x);
    SanToMoveFirst(s, san);
  }

  /** No other candidate has the SAN of `x`. */
  lemma SanUniqueAmong(s: GameState, x: Move)
    requires ValidEp(s.ep) && EpSquareEmpty(s)
    requires x in Expand(AllLegalMoves(s, s.turn))
    ensures SanReady(s, x)
    ensures forall j | 0 <= j < |Expand(AllLegalMoves(s, s.turn))|
              :: SanReady(s, Expand(AllLegalMoves(s, s.turn))[j])
                 && (MoveToSan(s, Expand(AllLegalMoves(s, s.turn))[j]) == MoveToSan(s, x)
                     ==> Expand(AllLegalMoves(s, s.turn))[j] == x)
  {
    var candidates := Expand(AllLegalMoves(s, s.turn));
    ExpandReady(s, s.turn);
    forall j | 0 <= j < |candidates|
      ensures SanReady(s, candidates[j]) && (MoveToSan(s, candidates[j]) == MoveToSan(s, x) ==> candidates[j] == x)
    {
      assert candidates[j] in candidates;
      if MoveToSan(s, candidates[j]) == MoveToSan(s, x) {
        SanInjective(s, candidates[j], x);
      }
    }
  }

  /** A candidate whose SAN is the cleaned text takes precedence over the coordinate reading. */
  lemma SanToMoveFirst(s: GameState, t: string)
    requires ValidEp(s.ep) && t != []
    ensures forall j | 0 <= j < |Expand(AllLegalMoves(s, s.turn))| :: SanReady(s, Expand(AllLegalMoves(s, s.turn))[j])
    ensures FirstBySan(s, Expand(AllLegalMoves(s, s.turn)), Clean(t)).Some?
            ==> SanToMove(s, t) == FirstBySan(s, Expand(AllLegalMoves(s, s.turn)), Clean(t))
  {
    ExpandReady(s, s.turn);
  }

  /** The move found by SAN is one of the moves searched, and has that SAN. */
  lemma {:induction false} FirstBySanFound(s: GameState, ms: seq<Move>, t: string)
    requires ValidEp(s.ep) && forall j | 0 <= j < |ms| :: SanReady(s, ms[j])
    ensures FirstBySan(s, ms, t).Some? ==> FirstBySan(s, ms, t).value in ms && MoveToSan(s, FirstBySan(s, ms, t).value) == t
  {
    if ms != [] && MoveToSan(s, ms[0]) != t {
      FirstBySanFound(s, ms[1..], t);
    }
  }

  /** When `x` is the only move of `ms` with SAN `t`, the search by SAN finds `x`. */
  lemma {:induction false} FirstBySanUnique(s: GameState, ms: seq<Move>, t: string, x: Move)
    requires ValidEp(s.ep) && forall j | 0 <= j < |ms| :: SanReady(s, ms[j])
    requires x in ms && MoveToSan(s, x) == t
    requires forall j | 0 <= j < |ms| && MoveToSan(s, ms[j]) == t :: ms[j] == x
    ensures FirstBySan(s, ms, t) == Some(x)
  {
    if MoveToSan(s, ms[0]) != t {
      assert x in ms[1..];
      FirstBySanUnique(s, ms[1..], t, x);
    }
  }
}
