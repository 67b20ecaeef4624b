/**
 * Properties of the game manager: what the repetition key sees, the
 * reference description of insufficient material, the starting position,
 * the meaning of mate and stalemate, and what a whole game preserves.
 */
module GameProofs {
  import opened Types
  import opened Boards
  import opened Constants
  import opened Moves
  import opened MoveGenSpec
  import opened SpecialMoves
  import opened Game

  // ---------------------------------------------------------------------
  // The repetition key
  // ---------------------------------------------------------------------

  /** What the key records about one square: nothing, or the type letter and colour letter. */
  function KeyView(cell: Option<Piece>): Option<(char, char)>
  {
    match cell
    case None => None
    case Some(p) => Some((KeyLetter(p.kind), ColorLetter(p.color)))
  }

  predicate SameKeyView(b1: Board, b2: Board)
  {
    forall r, c | 0 <= r < 8 && 0 <= c < 8 :: KeyView(b1[r][c]) == KeyView(b2[r][c])
  }

  lemma {:induction false} KeyEntriesSame(b1: Board, b2: Board, row: int, col: int)
    requires SameKeyView(b1, b2) && 0 <= row <= 8 && 0 <= col <= 8
    decreases 8 - row, 8 - col
    ensures KeyEntries(b1, row, col) == KeyEntries(b2, row, col)
  {
    if row == 8 {
    } else if col == 8 {
      KeyEntriesSame(b1, b2, row + 1, 0);
    } else {
      KeyEntriesSame(b1, b2, row, col + 1);
      assert KeyView(b1[row][col]) == KeyView(b2[row][col]);
    }
  }

  /**
   * Two positions share a key exactly when the side to move is the same and
   * every square shows the same type letter and colour letter; castling
   * rights and the en-passant target play no part.
   */
  lemma HashBoardIff(b1: Board, t1: Color, b2: Board, t2: Color)
    ensures HashBoard(b1, t1) == HashBoard(b2, t2) <==> t1 == t2 && SameKeyView(b1, b2)
  {
    if t1 == t2 && SameKeyView(b1, b2) {
      KeyEntriesSame(b1, b2, 0, 0);
    }
    if HashBoard(b1, t1) == HashBoard(b2, t2) {
      forall r, c | 0 <= r < 8 && 0 <= c < 8
        ensures KeyView(b1[r][c]) == KeyView(b2[r][c])
      {
        if b1[r][c].Some? {
          assert EntryOf(r, c, b1[r][c].value) in HashBoard(b2, t2).entries;
        }
        if b2[r][c].Some? {
          assert EntryOf(r, c, b2[r][c].value) in HashBoard(b1, t1).entries;
        }
      }
    }
  }

  /** A lone white knight and a lone white king on the same square share a key. */
  lemma KnightKingShareKey()
    ensures Put(EmptyGrid(), 0, 0, Some(Piece(Knight, White))) != Put(EmptyGrid(), 0, 0, Some(Piece(King, White)))
    ensures HashBoard(Put(EmptyGrid(), 0, 0, Some(Piece(Knight, White))), White)
            == HashBoard(Put(EmptyGrid(), 0, 0, Some(Piece(King, White))), White)
  {
    var b1 := Put(EmptyGrid(), 0, 0, Some(Piece(Knight, White)));
    var b2 := Put(EmptyGrid(), 0, 0, Some(Piece(King, White)));
    assert b1[0][0] != b2[0][0];
    forall r, c | 0 <= r < 8 && 0 <= c < 8
      ensures KeyView(b1[r][c]) == KeyView(b2[r][c])
    {
      if r != 0 || c != 0 {
        assert b1[r][c] == EmptyGrid()[r][c] == b2[r][c];
      }
    }
    HashBoardIff(b1, White, b2, White);
  }

  // ---------------------------------------------------------------------
  // Insufficient material
  // ---------------------------------------------------------------------

  /** No non-king piece of `color` is on the board. */
  predicate Bare(b: Board, color: Color)
  {
    forall r, c | 0 <= r < 8 && 0 <= c < 8 :: !IsMinorOrMajor(b[r][c], color)
  }

  /** (r, c) holds the only non-king piece of `color`. */
  predicate Lone(b: Board, color: Color, r: int, c: int)
  {
    InBounds(r, c) && IsMinorOrMajor(b[r][c], color)
    && forall r', c' | 0 <= r' < 8 && 0 <= c' < 8 && IsMinorOrMajor(b[r'][c'], color) :: r' == r && c' == c
  }

  /** The only non-king piece of `color` is a single one of `kind` (existence stated by its square). */
  predicate LoneOf(b: Board, color: Color, kind: PieceType)
  {
    exists r, c | 0 <= r < 8 && 0 <= c < 8 :: Lone(b, color, r, c) && b[r][c].value.kind == kind
  }

  lemma NoneIff(b: Board, color: Color)
    ensures |NonKingSquares(b, color, 0, 0)| == 0 <==> Bare(b, color)
  {
    NoneIfBare(b, color);
    BareIfNone(b, color);
  }

  lemma BareIfNone(b: Board, color: Color)
    ensures |NonKingSquares(b, color, 0, 0)| == 0 ==> Bare(b, color)
  {
    var sq := NonKingSquares(b, color, 0, 0);
    if !Bare(b, color) {
      var r, c :| 0 <= r < 8 && 0 <= c < 8 && IsMinorOrMajor(b[r][c], color);
      assert Pos(r, c) in sq;
    }
  }

  lemma NoneIfBare(b: Board, color: Color)
    ensures Bare(b, color) ==> |NonKingSquares(b, color, 0, 0)| == 0
  {
    var sq := NonKingSquares(b, color, 0, 0);
    if |sq| > 0 {
      var p := sq[0];
      assert p in sq;
      assert IsMinorOrMajor(b[p.row][p.col], color);
    }
  }

  lemma OneIff(b: Board, color: Color)
    ensures |NonKingSquares(b, color, 0, 0)| == 1
            <==> exists r, c | 0 <= r < 8 && 0 <= c < 8 :: Lone(b, color, r, c)
    ensures |NonKingSquares(b, color, 0, 0)| == 1
            ==> Lone(b, color, NonKingSquares(b, color, 0, 0)[0].row, NonKingSquares(b, color, 0, 0)[0].col)
  {
    LoneIfOne(b, color);
    if exists r, c | 0 <= r < 8 && 0 <= c < 8 :: Lone(b, color, r, c) {
      var r, c :| 0 <= r < 8 && 0 <= c < 8 && Lone(b, color, r, c);
      OneIfLone(b, color, r, c);
    }
  }

  /** A single non-king square is the lone one. */
  lemma LoneIfOne(b: Board, color: Color)
    ensures |NonKingSquares(b, color, 0, 0)| == 1
            ==> Lone(b, color, NonKingSquares(b, color, 0, 0)[0].row, NonKingSquares(b, color, 0, 0)[0].col)
  {
    var sq := NonKingSquares(b, color, 0, 0);
    if |sq| == 1 {
      var p := sq[0];
      assert p in sq;
      forall r', c' | 0 <= r' < 8 && 0 <= c' < 8 && IsMinorOrMajor(b[r'][c'], color)
        ensures r' == p.row && c' == p.col
      {
        assert Pos(r', c') in sq;
      }
    }
  }

  /** A lone non-king piece is the only square the scan lists. */
  lemma OneIfLone(b: Board, color: Color, r: int, c: int)
    requires Lone(b, color, r, c)
    ensures NonKingSquares(b, color, 0, 0) == [Pos(r, c)]
  {
    var sq := NonKingSquares(b, color, 0, 0);
    assert Pos(r, c) in sq;
    forall p
      ensures p in sq <==> p in [Pos(r, c)]
    {
      if p in sq {
        assert IsMinorOrMajor(b[p.row][p.col], color);
      }
    }
    SortedSameLength(sq, [Pos(r, c)]);
    assert sq[0] in sq;
  }

  /** The scan for the last bishop of `color` finds the only bishop of that colour. */
  lemma {:induction false} LastBishopFinds(b: Board, color: Color, row: int, col: int, r: int, c: int)
    requires 0 <= row <= 8 && 0 <= col <= 8 && InBounds(r, c)
    requires b[r][c] == Some(Piece(Bishop, color))
    requires forall r', c' | 0 <= r' < 8 && 0 <= c' < 8 && b[r'][c'] == Some(Piece(Bishop, color)) :: r' == r && c' == c
    decreases 8 - row, 8 - col
    ensures LastBishopParity(b, color, row, col) == if Before(r, c, row, col) then None else Some((r + c) % 2)
  {
    if row == 8 {
    } else if col == 8 {
      LastBishopFinds(b, color, row + 1, 0, r, c);
    } else {
      LastBishopFinds(b, color, row, col + 1, r, c);
    }
  }

  /** One lone bishop per side, both on squares of the same colour. */
  predicate SameColourBishops(b: Board)
  {
    exists r1, c1, r2, c2 | 0 <= r1 < 8 && 0 <= c1 < 8 && 0 <= r2 < 8 && 0 <= c2 < 8
      :: Lone(b, White, r1, c1) && Lone(b, Black, r2, c2)
         && b[r1][c1].value.kind == Bishop && b[r2][c2].value.kind == Bishop
         && (r1 + c1) % 2 == (r2 + c2) % 2
  }

  /**
   * Reference description of insufficient material: bare kings; a bare king
   * against king and a single knight or bishop; or king and one bishop each,
   * both bishops on squares of the same colour.
   */
  predicate InsufficientSpec(b: Board)
  {
    || (Bare(b, White) && Bare(b, Black))
    || MinorAgainstBare(b, Black)
    || MinorAgainstBare(b, White)
    || SameColourBishops(b)
  }

  /** `color` has a single knight or bishop besides its king, and the other side has only its king. */
  predicate MinorAgainstBare(b: Board, color: Color)
  {
    Bare(b, Opponent(color)) && (LoneOf(b, color, Bishop) || LoneOf(b, color, Knight))
  }

  lemma LoneOfIff(b: Board, color: Color, kind: PieceType)
    ensures LoneOf(b, color, kind)
            <==> |NonKingTypes(b, color)| == 1 && NonKingTypes(b, color)[0] == kind
  {
    OneIff(b, color);
    var sq := NonKingSquares(b, color, 0, 0);
    if LoneOf(b, color, kind) {
      var r, c :| 0 <= r < 8 && 0 <= c < 8 && Lone(b, color, r, c) && b[r][c].value.kind == kind;
      assert sq[0] in sq;
    }
  }

  /** The engine's bishop clause, on the counted types and the parity scan. */
  predicate BishopClause(b: Board)
  {
    && |NonKingTypes(b, White)| == 1 && |NonKingTypes(b, Black)| == 1
    && NonKingTypes(b, White)[0] == Bishop && NonKingTypes(b, Black)[0] == Bishop
    && LastBishopParity(b, White, 0, 0) == LastBishopParity(b, Black, 0, 0)
  }

  lemma BishopCaseIff(b: Board)
    ensures SameColourBishops(b) <==> BishopClause(b)
  {
    BishopClauseSound(b);
    BishopClauseComplete(b);
  }

  lemma BishopClauseSound(b: Board)
    ensures BishopClause(b) ==> SameColourBishops(b)
  {
    if BishopClause(b) {
      var w := LoneBishopSquare(b, White);
      var k := LoneBishopSquare(b, Black);
      SameColourWitness(b, w.row, w.col, k.row, k.col);
    }
  }

  /** When the only non-king piece of `color` is a bishop, where it stands. */
  lemma LoneBishopSquare(b: Board, color: Color) returns (p: Pos)
    requires |NonKingTypes(b, color)| == 1 && NonKingTypes(b, color)[0] == Bishop
    ensures Lone(b, color, p.row, p.col) && b[p.row][p.col].value.kind == Bishop
  {
    LoneIfOne(b, color);
    p := NonKingSquares(b, color, 0, 0)[0];
    assert NonKingTypes(b, color)[0] == b[p.row][p.col].value.kind;
  }

  lemma SameColourWitness(b: Board, r1: int, c1: int, r2: int, c2: int)
    requires Lone(b, White, r1, c1) && b[r1][c1].value.kind == Bishop
    requires Lone(b, Black, r2, c2) && b[r2][c2].value.kind == Bishop
    requires LastBishopParity(b, White, 0, 0) == LastBishopParity(b, Black, 0, 0)
    ensures SameColourBishops(b)
  {
    BishopPair(b, r1, c1, r2, c2);
    assert 0 <= r1 < 8 && 0 <= c1 < 8 && 0 <= r2 < 8 && 0 <= c2 < 8;
  }

  lemma BishopClauseComplete(b: Board)
    ensures SameColourBishops(b) ==> BishopClause(b)
  {
    if SameColourBishops(b) {
      var r1, c1, r2, c2 :| 0 <= r1 < 8 && 0 <= c1 < 8 && 0 <= r2 < 8 && 0 <= c2 < 8
          && Lone(b, White, r1, c1) && Lone(b, Black, r2, c2)
          && b[r1][c1].value.kind == Bishop && b[r2][c2].value.kind == Bishop
          && (r1 + c1) % 2 == (r2 + c2) % 2;
      BishopClauseOf(b, r1, c1, r2, c2);
    }
  }

  /** Two lone bishops on squares of the same colour satisfy the engine's clause. */
  lemma BishopClauseOf(b: Board, r1: int, c1: int, r2: int, c2: int)
    requires 0 <= r1 < 8 && 0 <= c1 < 8 && 0 <= r2 < 8 && 0 <= c2 < 8
    requires Lone(b, White, r1, c1) && b[r1][c1].value.kind == Bishop
    requires Lone(b, Black, r2, c2) && b[r2][c2].value.kind == Bishop
    requires (r1 + c1) % 2 == (r2 + c2) % 2
    ensures BishopClause(b)
  {
    assert LoneOf(b, White, Bishop) && LoneOf(b, Black, Bishop);
    LoneOfIff(b, White, Bishop);
    LoneOfIff(b, Black, Bishop);
    BishopPair(b, r1, c1, r2, c2);
  }

  lemma InsufficientMaterialIff(b: Board)
    ensures InsufficientMaterial(b) <==> InsufficientSpec(b)
  {
    MinorAgainstBareIff(b, White);
    MinorAgainstBareIff(b, Black);
    BareKingsIff(b);
    BishopCaseIff(b);
  }

  lemma BareKingsIff(b: Board)
    ensures (Bare(b, White) && Bare(b, Black)) == (|NonKingTypes(b, White)| == 0 && |NonKingTypes(b, Black)| == 0)
  {
    NoneIff(b, White);
    NoneIff(b, Black);
  }

  lemma MinorAgainstBareIff(b: Board, color: Color)
    ensures MinorAgainstBare(b, color)
            == (&& |NonKingTypes(b, Opponent(color))| == 0 && |NonKingTypes(b, color)| == 1
                && (NonKingTypes(b, color)[0] == Bishop || NonKingTypes(b, color)[0] == Knight))
  {
    NoneIff(b, Opponent(color));
    LoneOfIff(b, color, Bishop);
    LoneOfIff(b, color, Knight);
  }

  /** With one lone bishop per side, the parity test compares the bishops' square colours. */
  lemma BishopPair(b: Board, r1: int, c1: int, r2: int, c2: int)
    requires Lone(b, White, r1, c1) && b[r1][c1].value.kind == Bishop
    requires Lone(b, Black, r2, c2) && b[r2][c2].value.kind == Bishop
    ensures LastBishopParity(b, White, 0, 0) == Some((r1 + c1) % 2)
    ensures LastBishopParity(b, Black, 0, 0) == Some((r2 + c2) % 2)
  {
    LoneBishopOnly(b, White, Pos(r1, c1));
    LoneBishopOnly(b, Black, Pos(r2, c2));
    LastBishopFinds(b, White, 0, 0, r1, c1);
    LastBishopFinds(b, Black, 0, 0, r2, c2);
  }

  lemma LoneBishopOnly(b: Board, color: Color, p: Pos)
    requires Lone(b, color, p.row, p.col) && b[p.row][p.col].value.kind == Bishop
    ensures b[p.row][p.col] == Some(Piece(Bishop, color))
    ensures forall r', c' | 0 <= r' < 8 && 0 <= c' < 8 && b[r'][c'] == Some(Piece(Bishop, color))
              :: r' == p.row && c' == p.col
  {
    forall r', c' | 0 <= r' < 8 && 0 <= c' < 8 && b[r'][c'] == Some(Piece(Bishop, color))
      ensures r' == p.row && c' == p.col
    {
      assert IsMinorOrMajor(b[r'][c'], color);
    }
  }

  // ---------------------------------------------------------------------
  // The starting position
  // ---------------------------------------------------------------------

  /** Each side has exactly one king, on column 4 of its back rank, and the king search finds it. */
  lemma InitialKings(color: Color)
    ensures forall r, c | 0 <= r < 8 && 0 <= c < 8
              :: IsKingOf(InitialBoard()[r][c], color) <==> r == BaseRow(color) && c == 4
    ensures FindKing(InitialBoard(), color) == Some(Pos(BaseRow(color), 4))
  {
    var b := InitialBoard();
    forall r, c | 0 <= r < 8 && 0 <= c < 8
      ensures IsKingOf(b[r][c], color) <==> r == BaseRow(color) && c == 4
    {
      assert BackRank[c] == King <==> c == 4;
    }
  }

  /** On the starting board, the non-king pieces of `color` fill its pawn row and its back rank except column 4. */
  lemma InitialNonKing(color: Color, r: int, c: int)
    requires 0 <= r < 8 && 0 <= c < 8
    ensures IsMinorOrMajor(InitialBoard()[r][c], color)
            <==> r == StartRow(color) || (r == BaseRow(color) && c != 4)
  {
    assert BackRank[c] == King <==> c == 4;
  }

  /** Each side starts with fifteen non-king pieces, sixteen with the king. */
  lemma InitialPieceCount(color: Color)
    ensures |NonKingSquares(InitialBoard(), color, 0, 0)| == 15
  {
    var sq := NonKingSquares(InitialBoard(), color, 0, 0);
    var expected := NonKingHome(color);
    forall p
      ensures p in sq <==> p in expected
    {
      NonKingHomeMembers(color, p);
      if InBounds(p.row, p.col) {
        InitialNonKing(color, p.row, p.col);
      }
    }
    NonKingHomeSorted(color);
    SortedSameLength(sq, expected);
  }

  /** Column of the k-th back-rank piece other than the king. */
  function BackCol(k: int): int
  {
    if k < 4 then k else k + 1
  }

  /** The i-th home square of the non-king pieces of `color` in row-major order. */
  function HomeAt(color: Color, i: int): Pos
  {
    if color == White then (if i < 8 then Pos(6, i) else Pos(7, BackCol(i - 8)))
    else (if i < 7 then Pos(0, BackCol(i)) else Pos(1, i - 7))
  }

  /** The home squares of the non-king pieces of `color`, in row-major order. */
  function NonKingHome(color: Color): (r: seq<Pos>)
    ensures |r| == 15
  {
    seq(15, i requires 0 <= i < 15 => HomeAt(color, i))
  }

  lemma NonKingHomeMembers(color: Color, p: Pos)
    ensures p in NonKingHome(color)
            <==> InBounds(p.row, p.col) && (p.row == StartRow(color) || (p.row == BaseRow(color) && p.col != 4))
  {
    var h := NonKingHome(color);
    if InBounds(p.row, p.col) && (p.row == StartRow(color) || (p.row == BaseRow(color) && p.col != 4)) {
      var k := if p.col < 4 then p.col else p.col - 1;
      var i := if color == White then (if p.row == 6 then p.col else 8 + k)
               else (if p.row == 0 then k else 7 + p.col);
      assert h[i] == p;
    }
  }

  lemma NonKingHomeSorted(color: Color)
    ensures forall i, j | 0 <= i < j < |NonKingHome(color)|
              :: Before(NonKingHome(color)[i].row, NonKingHome(color)[i].col,
                        NonKingHome(color)[j].row, NonKingHome(color)[j].col)
  {
    var h := NonKingHome(color);
    forall i, j | 0 <= i < j < 15
      ensures Before(h[i].row, h[i].col, h[j].row, h[j].col)
    {
      assert h[i] == HomeAt(color, i) && h[j] == HomeAt(color, j);
    }
  }

  /** Two strictly row-major sequences with the same members have the same length. */
  lemma {:induction false} SortedSameLength(a: seq<Pos>, b: seq<Pos>)
    requires forall i, j | 0 <= i < j < |a| :: Before(a[i].row, a[i].col, a[j].row, a[j].col)
    requires forall i, j | 0 <= i < j < |b| :: Before(b[i].row, b[i].col, b[j].row, b[j].col)
    requires forall p :: p in a <==> p in b
    ensures |a| == |b|
    decreases |a|
  {
    if a != [] && b != [] {
      assert a[0] == b[0] by {
        assert a[0] in b && b[0] in a;
        var i :| 0 <= i < |b| && b[i] == a[0];
        var j :| 0 <= j < |a| && a[j] == b[0];
        assert i > 0 ==> Before(b[0].row, b[0].col, a[0].row, a[0].col);
        assert j > 0 ==> Before(a[0].row, a[0].col, b[0].row, b[0].col);
      }
      forall p
        ensures p in a[1..] <==> p in b[1..]
      {
        if p in a[1..] {
          var i :| 1 <= i < |a| && a[i] == p;
          assert Before(a[0].row, a[0].col, p.row, p.col);
          assert p in b;
        }
        if p in b[1..] {
          var i :| 1 <= i < |b| && b[i] == p;
          assert Before(b[0].row, b[0].col, p.row, p.col);
          assert p in a;
        }
      }
      SortedSameLength(a[1..], b[1..]);
    } else {
      SameMembersEmpty(a, b);
    }
  }

  lemma SameMembersEmpty(a: seq<Pos>, b: seq<Pos>)
    requires forall p :: p in a <==> p in b
    ensures a == [] <==> b == []
  {
    if a != [] {
      assert a[0] in a;
    }
    if b != [] {
      assert b[0] in b;
    }
  }

  // ---------------------------------------------------------------------
  // Mate and stalemate
  // ---------------------------------------------------------------------

  /** The side to move has no legal target from any of its pieces. */
  predicate NoLegalMove(s: GameState)
    requires ValidEp(s.ep)
  {
    forall r, c, t | 0 <= r < 8 && 0 <= c < 8 && s.board[r][c].Some? && s.board[r][c].value.color == s.turn
      :: t !in LegalMoves(s, r, c)
  }

  lemma NoMovesIff(s: GameState)
    requires ValidEp(s.ep)
    ensures |AllLegalMoves(s, s.turn)| == 0 <==> NoLegalMove(s)
  {
    if |AllLegalMoves(s, s.turn)| > 0 {
      var m := AllLegalMoves(s, s.turn)[0];
      AllLegalIff(s, s.turn, m);
    }
    if !NoLegalMove(s) {
      var r, c, t :| 0 <= r < 8 && 0 <= c < 8 && s.board[r][c].Some? && s.board[r][c].value.color == s.turn
                     && t in LegalMoves(s, r, c);
      AllLegalIff(s, s.turn, Move(r, c, t.row, t.col, t.special, None));
    }
  }

  /** Checkmate is check with no legal target; stalemate is no legal target without check. */
  lemma MateIff(s: GameState)
    requires ValidEp(s.ep)
    ensures GameStatus(s) == Checkmate <==> IsInCheck(s.board, s.turn) && NoLegalMove(s)
    ensures GameStatus(s) == Stalemate <==> !IsInCheck(s.board, s.turn) && NoLegalMove(s)
  {
    NoMovesIff(s);
  }

  // ---------------------------------------------------------------------
  // A whole game
  // ---------------------------------------------------------------------

  /** One step of a replay: the first move is made, and the rest is replayed from there. */
  lemma PlayStep(s: GameState, ms: seq<Move>)
    requires ms != [] && Play(s, ms).Some?
    ensures CanMake(s, ms[0])
    ensures Play(MakeMove(s, ms[0]), ms[1..]) == Play(s, ms)
  {
  }

  lemma TailParity(ms: seq<Move>)
    requires ms != []
    ensures (|ms[1..]| % 2 == 0) <==> (|ms| % 2 != 0)
  {
  }

  /**
   * The manager's half-move clock restarts after a pawn move or a capture
   * (en passant included) and otherwise counts one more ply, so it is the
   * number of plies since the last pawn move or capture that the fifty-move
   * rule of `GameStatus` reads.
   */
  lemma MakeMoveClock(s: GameState, m: Move)
    requires CanMake(s, m)
    ensures var r := MakeMove(s, m);
            var p := s.board[m.fromRow][m.fromCol].value;
            && (r.halfMoveClock == 0 <==> p.kind == Pawn || s.board[m.toRow][m.toCol].Some? || m.special == EnPassant)
            && (r.halfMoveClock != 0 ==> r.halfMoveClock == s.halfMoveClock + 1)
  {
  }

  /** A move that is neither a pawn move nor a capture. */
  predicate QuietMove(s: GameState, m: Move)
    requires Applicable(s.board, m)
  {
    s.board[m.fromRow][m.fromCol].value.kind != Pawn && s.board[m.toRow][m.toCol].None? && m.special != EnPassant
  }

  /** Every move of `ms`, played in turn from `s`, can be made and is quiet. */
  predicate QuietPlay(s: GameState, ms: seq<Move>)
    decreases |ms|
  {
    ms == [] || (CanMake(s, ms[0]) && QuietMove(s, ms[0]) && QuietPlay(MakeMove(s, ms[0]), ms[1..]))
  }

  /** Over a run of quiet moves the clock grows by exactly the number of moves played. */
  lemma {:induction false} PlayQuietClock(s: GameState, ms: seq<Move>)
    requires QuietPlay(s, ms)
    decreases |ms|
    ensures Play(s, ms).Some? && Play(s, ms).value.halfMoveClock == s.halfMoveClock + |ms|
  {
    if ms != [] {
      MakeMoveClock(s, ms[0]);
      PlayQuietClock(MakeMove(s, ms[0]), ms[1..]);
    }
  }

  /** Castling rights never come back over any sequence of moves the manager accepts. */
  lemma {:induction false} PlayKeepsRights(s: GameState, ms: seq<Move>)
    requires Play(s, ms).Some?
    decreases |ms|
    ensures RightsWithin(Play(s, ms).value.rights, s.rights)
  {
    if ms == [] {
      assert Play(s, ms) == Some(s);
    } else {
      PlayStep(s, ms);
      var next := MakeMove(s, ms[0]);
      PlayKeepsRights(next, ms[1..]);
    }
  }

  /** The move history gains exactly the moves played. */
  lemma {:induction false} PlayRecordsMoves(s: GameState, ms: seq<Move>)
    requires Play(s, ms).Some?
    decreases |ms|
    ensures Play(s, ms).value.moveHistory == s.moveHistory + ms
  {
    if ms == [] {
      assert Play(s, ms) == Some(s);
    } else {
      PlayStep(s, ms);
      var next := MakeMove(s, ms[0]);
      PlayRecordsMoves(next, ms[1..]);
      ConsTail(s.moveHistory, ms);
    }
  }

  lemma ConsTail(h: seq<Move>, ms: seq<Move>)
    requires ms != []
    ensures h + [ms[0]] + ms[1..] == h + ms
  {
    assert [ms[0]] + ms[1..] == ms;
  }

  /** One key is recorded per move played. */
  lemma {:induction false} PlayCountsKeys(s: GameState, ms: seq<Move>)
    requires Play(s, ms).Some?
    decreases |ms|
    ensures |Play(s, ms).value.positionHistory| == |s.positionHistory| + |ms|
  {
    if ms == [] {
      assert Play(s, ms) == Some(s);
    } else {
      PlayStep(s, ms);
      PlayCountsKeys(MakeMove(s, ms[0]), ms[1..]);
    }
  }

  /** The keys recorded before the replay stay in place. */
  lemma {:induction false} PlayKeepsKeys(s: GameState, ms: seq<Move>)
    requires Play(s, ms).Some?
    decreases |ms|
    ensures |s.positionHistory| <= |Play(s, ms).value.positionHistory|
    ensures Play(s, ms).value.positionHistory[..|s.positionHistory|] == s.positionHistory
  {
    if ms == [] {
      assert Play(s, ms) == Some(s);
    } else {
      PlayStep(s, ms);
      var next := MakeMove(s, ms[0]);
      PlayKeepsKeys(next, ms[1..]);
      PrefixOfPrefix(Play(s, ms).value.positionHistory, s.positionHistory, [HashBoard(next.board, next.turn)]);
    }
  }

  lemma PrefixOfPrefix(h: seq<PositionKey>, start: seq<PositionKey>, extra: seq<PositionKey>)
    requires |start + extra| <= |h| && h[..|start + extra|] == start + extra
    ensures |start| <= |h| && h[..|start|] == start
  {
    assert h[..|start|] == (start + extra)[..|start|];
  }

  /** The side to move alternates with every move played. */
  lemma {:induction false} PlayAlternates(s: GameState, ms: seq<Move>)
    requires Play(s, ms).Some?
    decreases |ms|
    ensures Play(s, ms).value.turn == if |ms| % 2 == 0 then s.turn else Opponent(s.turn)
  {
    if ms == [] {
      assert Play(s, ms) == Some(s);
    } else {
      PlayStep(s, ms);
      var next := MakeMove(s, ms[0]);
      PlayAlternates(next, ms[1..]);
      TailParity(ms);
      assert Opponent(Opponent(s.turn)) == s.turn;
    }
  }
}
