/**
 * Algebraic notation: square names, Standard Algebraic Notation (SAN) for a
 * move following section 8.2.3 of the PGN standard, reading SAN or
 * coordinate text back into a legal move, and the two text serialisers the
 * engine offers (the board description and the numbered move list).
 *
 * A SAN text is described by a `SanShape` and a `Mark`; `Render` writes a
 * shape and `ParseSan` reads one back.
 */
module Notation {
  import opened Types
  import opened Boards
  import opened Moves
  import opened SpecialMoves
  import opened Game
  import opened MoveGenSpec
  import opened Legality
  import opened Text

  // ---------------------------------------------------------------------
  // Square names
  // ---------------------------------------------------------------------

  predicate IsFileChar(c: char)
  {
    'a' <= c <= 'h'
  }

  predicate IsRankChar(c: char)
  {
    '1' <= c <= '8'
  }

  /** The letter of a file: column 0 is 'a'. */
  function FileChar(col: int): (c: char)
    requires 0 <= col < 8
    ensures IsFileChar(c)
  {
    ('a' as int + col) as char
  }

  /** The column of a file letter. */
  function FileIndex(c: char): (col: int)
    requires IsFileChar(c)
    ensures 0 <= col < 8 && FileChar(col) == c
  {
    c as int - 'a' as int
  }

  /** The rank digit of a row: row 0 is rank 8. */
  function RankChar(row: int): (c: char)
    requires 0 <= row < 8
    ensures IsRankChar(c)
  {
    DigitChar(8 - row)
  }

  /** The row of a rank digit. */
  function RowOfRank(c: char): (row: int)
    requires IsRankChar(c)
    ensures 0 <= row < 8 && RankChar(row) == c
  {
    8 - DigitValue(c)
  }

  /** The name of a square: file letter, then rank digit. */
  function SquareName(row: int, col: int): (name: string)
    requires InBounds(row, col)
    ensures |name| == 2 && IsFileChar(name[0]) && IsRankChar(name[1])
  {
    [FileChar(col), RankChar(row)]
  }

  /**
   * Coordinates read from a square name. The column is -1 when the first
   * character is not a file letter; the row is absent (not a number) when the
   * second character is not a digit.
   */
  datatype SquareCoord = SquareCoord(row: Option<int>, col: int)

  function FromSquareName(square: string): (r: SquareCoord)
    ensures -1 <= r.col < 8
    ensures r.row.Some? <==> |square| >= 2 && IsDigit(square[1])
  {
    var col := if |square| >= 1 && IsFileChar(square[0]) then FileIndex(square[0]) else -1;
    var row := if |square| >= 2 && IsDigit(square[1]) then Some(8 - DigitValue(square[1])) else None;
    SquareCoord(row, col)
  }

  /** Reading a square's name gives the square back. */
  lemma SquareNameRoundTrip(row: int, col: int)
    requires InBounds(row, col)
    ensures FromSquareName(SquareName(row, col)) == SquareCoord(Some(row), col)
  {
  }

  /** Every well-formed name is the name of the square read from it. */
  lemma SquareNameOfCoordinates(square: string)
    requires |square| == 2 && IsFileChar(square[0]) && IsRankChar(square[1])
    ensures FromSquareName(square).row.Some?
    ensures InBounds(FromSquareName(square).row.value, FromSquareName(square).col)
    ensures SquareName(FromSquareName(square).row.value, FromSquareName(square).col) == square
  {
    assert RowOfRank(square[1]) == 8 - DigitValue(square[1]);
  }

  // ---------------------------------------------------------------------
  // The shape of a SAN text
  // ---------------------------------------------------------------------

  /**
   * Letter of a piece type. The letter table has no pawn entry; appending
   * the missing entry to a string writes "undefined".
   */
  function PieceLetter(t: PieceType): string
  {
    match t
    case King => "K"
    case Queen => "Q"
    case Rook => "R"
    case Bishop => "B"
    case Knight => "N"
    case Pawn => "undefined"
  }

  /** The piece type whose letter is `t`. */
  function LetterKind(t: string): Option<PieceType>
  {
    if t == "K" then Some(King)
    else if t == "Q" then Some(Queen)
    else if t == "R" then Some(Rook)
    else if t == "B" then Some(Bishop)
    else if t == "N" then Some(Knight)
    else if t == "undefined" then Some(Pawn)
    else None
  }

  /** How a piece move names its origin when another piece of the type could reach the same square. */
  datatype Qualifier = Unqualified | ByFile(col: int) | ByRank(row: int) | BySquare(row: int, col: int)

  /** The check or checkmate indication at the end of the text. */
  datatype Mark = NoMark | CheckMark | MateMark

  datatype SanShape =
    | Castle(queenSide: bool)
    | PawnSan(captureFile: Option<int>, toRow: int, toCol: int, promotion: Option<PieceType>)
    | PieceSan(kind: PieceType, qualifier: Qualifier, capture: bool, toRow: int, toCol: int)

  predicate QualifierOk(q: Qualifier)
  {
    match q
    case Unqualified => true
    case ByFile(c) => 0 <= c < 8
    case ByRank(r) => 0 <= r < 8
    case BySquare(r, c) => InBounds(r, c)
  }

  /** Squares on the board, and no pawn letter in front of a piece move. */
  predicate WellFormed(shape: SanShape)
  {
    match shape
    case Castle(_) => true
    case PawnSan(f, r, c, _) => InBounds(r, c) && (f.Some? ==> 0 <= f.value < 8)
    case PieceSan(k, q, _, r, c) => k != Pawn && InBounds(r, c) && QualifierOk(q)
  }

  function QualifierText(q: Qualifier): string
    requires QualifierOk(q)
  {
    match q
    case Unqualified => ""
    case ByFile(c) => [FileChar(c)]
    case ByRank(r) => [RankChar(r)]
    case BySquare(r, c) => SquareName(r, c)
  }

  function MarkText(mark: Mark): string
  {
    match mark
    case NoMark => ""
    case CheckMark => "+"
    case MateMark => "#"
  }

  /** The text of a shape, without its mark. */
  function BodyText(shape: SanShape): string
    requires WellFormed(shape)
  {
    match shape
    case Castle(q) => if q then "O-O-O" else "O-O"
    case PawnSan(f, r, c, p) =>
      (if f.Some? then [FileChar(f.value), 'x'] else [])
      + SquareName(r, c)
      + (if p.Some? then "=" + PieceLetter(p.value) else "")
    case PieceSan(k, q, cap, r, c) =>
      PieceLetter(k) + QualifierText(q) + (if cap then "x" else "") + SquareName(r, c)
  }

  function Render(shape: SanShape, mark: Mark): string
    requires WellFormed(shape)
  {
    BodyText(shape) + MarkText(mark)
  }

  // ---------------------------------------------------------------------
  // Reading a SAN text
  // ---------------------------------------------------------------------

  /** Separates a trailing mate or check sign from the rest. */
  function SplitMark(t: string): (string, Mark)
  {
    if |t| > 0 && t[|t| - 1] == '#' then (t[..|t| - 1], MateMark)
    else if |t| > 0 && t[|t| - 1] == '+' then (t[..|t| - 1], CheckMark)
    else (t, NoMark)
  }

  function ParseSquare(t: string): Option<Pos>
  {
    if |t| == 2 && IsFileChar(t[0]) && IsRankChar(t[1]) then
      var c := FromSquareName(t);
      Some(Pos(c.row.value, c.col))
    else None
  }

  function ParseQualifier(t: string): Option<Qualifier>
  {
    if t == [] then Some(Unqualified)
    else if |t| == 1 && IsFileChar(t[0]) then Some(ByFile(FileIndex(t[0])))
    else if |t| == 1 && IsRankChar(t[0]) then Some(ByRank(RowOfRank(t[0])))
    else
      match ParseSquare(t)
      case Some(p) => Some(BySquare(p.row, p.col))
      case None => None
  }

  /** A pawn text: optional origin file and 'x', destination, optional '=' and promotion letter. */
  function ParsePawn(b: string): Option<SanShape>
  {
    var capture := |b| >= 2 && IsFileChar(b[0]) && b[1] == 'x';
    var rest := if capture then b[2..] else b;
    if |rest| < 2 then None
    else
      match ParseSquare(rest[..2])
      case None => None
      case Some(to) =>
        var file := if capture then Some(FileIndex(b[0])) else None;
        var tail := rest[2..];
        if tail == [] then Some(PawnSan(file, to.row, to.col, None))
        else if tail[0] == '=' then
          match LetterKind(tail[1..])
          case Some(k) => Some(PawnSan(file, to.row, to.col, Some(k)))
          case None => None
        else None
  }

  /** A piece text: letter, qualifier, optional 'x', destination. */
  function ParsePiece(b: string): Option<SanShape>
  {
    if |b| < 3 then None
    else
      match LetterKind(b[..1])
      case None => None
      case Some(k) =>
        match ParseSquare(b[|b| - 2..])
        case None => None
        case Some(to) =>
          var mid := b[1..|b| - 2];
          var capture := |mid| > 0 && mid[|mid| - 1] == 'x';
          var q := if capture then mid[..|mid| - 1] else mid;
          match ParseQualifier(q)
          case None => None
          case Some(qual) => Some(PieceSan(k, qual, capture, to.row, to.col))
  }

  function ParseBody(b: string): Option<SanShape>
  {
    if b == "O-O" then Some(Castle(false))
    else if b == "O-O-O" then Some(Castle(true))
    else if |b| > 0 && IsFileChar(b[0]) then ParsePawn(b)
    else ParsePiece(b)
  }

  /** The shape and mark a SAN text describes, if it describes one. */
  function ParseSan(t: string): Option<(SanShape, Mark)>
  {
    var (body, mark) := SplitMark(t);
    match ParseBody(body)
    case None => None
    case Some(shape) => Some((shape, mark))
  }

  /** A rendered body is not empty and does not end in a mark sign. */
  lemma BodyEnd(shape: SanShape)
    requires WellFormed(shape)
    ensures |BodyText(shape)| > 0
    ensures BodyText(shape)[|BodyText(shape)| - 1] != '#' && BodyText(shape)[|BodyText(shape)| - 1] != '+'
  {
    match shape
    case Castle(_) =>
    case PawnSan(f, r, c, p) =>
      if p.Some? {
        var t := BodyText(shape);
        assert t[|t| - 1] == PieceLetter(p.value)[|PieceLetter(p.value)| - 1];
      }
    case PieceSan(_, _, _, r, c) =>
  }

  lemma SplitMarkRender(body: string, mark: Mark)
    requires |body| > 0 && body[|body| - 1] != '#' && body[|body| - 1] != '+'
    ensures SplitMark(body + MarkText(mark)) == (body, mark)
  {
    match mark
    case NoMark => assert body + MarkText(mark) == body;
    case CheckMark => assert (body + "+")[..|body|] == body;
    case MateMark => assert (body + "#")[..|body|] == body;
  }

  lemma ParseSquareName(row: int, col: int)
    requires InBounds(row, col)
    ensures ParseSquare(SquareName(row, col)) == Some(Pos(row, col))
  {
    SquareNameRoundTrip(row, col);
  }

  lemma PawnRoundTrip(f: Option<int>, r: int, c: int, p: Option<PieceType>)
    requires WellFormed(PawnSan(f, r, c, p))
    ensures ParseBody(BodyText(PawnSan(f, r, c, p))) == Some(PawnSan(f, r, c, p))
  {
    var b := BodyText(PawnSan(f, r, c, p));
    var sq := SquareName(r, c);
    var promo := if p.Some? then "=" + PieceLetter(p.value) else "";
    var rest := sq + promo;
    ParseSquareName(r, c);
    if f.Some? {
      assert b == [FileChar(f.value), 'x'] + rest;
      assert b[2..] == rest;
    } else {
      assert b == rest;
    }
    assert rest[..2] == sq;
    assert rest[2..] == promo;
    if p.Some? {
      assert promo[1..] == PieceLetter(p.value);
    }
  }

  lemma QualifierRoundTrip(q: Qualifier)
    requires QualifierOk(q)
    ensures ParseQualifier(QualifierText(q)) == Some(q)
  {
    match q
    case Unqualified =>
    case ByFile(c) =>
    case ByRank(r) =>
    case BySquare(r, c) => ParseSquareName(r, c);
  }

  lemma PieceRoundTrip(k: PieceType, q: Qualifier, cap: bool, r: int, c: int)
    requires WellFormed(PieceSan(k, q, cap, r, c))
    ensures ParseBody(BodyText(PieceSan(k, q, cap, r, c))) == Some(PieceSan(k, q, cap, r, c))
  {
    var qt := QualifierText(q);
    var x := if cap then "x" else "";
    var sq := SquareName(r, c);
    var b := PieceLetter(k) + qt + x + sq;
    assert BodyText(PieceSan(k, q, cap, r, c)) == b;
    ParseSquareName(r, c);
    QualifierRoundTrip(q);
    assert qt == [] || qt[|qt| - 1] != 'x';
    PieceBodyIsPiece(b);
    ParsePieceText(k, qt, q, cap, sq, r, c);
  }

  /** A body that starts with a piece letter is read as a piece move. */
  lemma PieceBodyIsPiece(b: string)
    requires |b| > 0 && b[0] in "KQRBN"
    ensures ParseBody(b) == ParsePiece(b)
  {
    assert b != "O-O" && b != "O-O-O" by {
      assert "O-O"[0] == 'O' && "O-O-O"[0] == 'O';
    }
  }

  /** A piece letter, a qualifier text, an optional 'x' and a square name read back as their parts. */
  lemma ParsePieceText(k: PieceType, qt: string, q: Qualifier, cap: bool, sq: string, r: int, c: int)
    requires k != Pawn && ParseQualifier(qt) == Some(q) && (qt == [] || qt[|qt| - 1] != 'x')
    requires |sq| == 2 && ParseSquare(sq) == Some(Pos(r, c))
    ensures ParsePiece(PieceLetter(k) + qt + (if cap then "x" else "") + sq) == Some(PieceSan(k, q, cap, r, c))
  {
    var x := if cap then "x" else "";
    var b := PieceLetter(k) + qt + x + sq;
    assert b[..1] == PieceLetter(k);
    assert b[|b| - 2..] == sq;
    var mid := b[1..|b| - 2];
    assert mid == qt + x;
    if cap {
      assert mid[..|mid| - 1] == qt;
    }
  }

  lemma BodyRoundTrip(shape: SanShape)
    requires WellFormed(shape)
    ensures ParseBody(BodyText(shape)) == Some(shape)
  {
    match shape
    case Castle(_) =>
    case PawnSan(f, r, c, p) => PawnRoundTrip(f, r, c, p);
    case PieceSan(k, q, cap, r, c) => PieceRoundTrip(k, q, cap, r, c);
  }

  /** Reading a rendered SAN text gives back its shape and mark. */
  lemma ParseRender(shape: SanShape, mark: Mark)
    requires WellFormed(shape)
    ensures ParseSan(Render(shape, mark)) == Some((shape, mark))
  {
    BodyEnd(shape);
    SplitMarkRender(BodyText(shape), mark);
    BodyRoundTrip(shape);
  }

  // ---------------------------------------------------------------------
  // SAN of a move
  // ---------------------------------------------------------------------

  /** A capture as the notation sees it: an occupied destination, or en passant. */
  predicate IsCapture(b: Board, m: Move)
    requires InBounds(m.toRow, m.toCol)
  {
    b[m.toRow][m.toCol].Some? || m.special == EnPassant
  }

  /**
   * `x` is a rival of `m` for a piece of type `kind`: it goes to the same
   * square from a different square holding a piece of that type.
   */
  predicate IsRival(b: Board, kind: PieceType, m: Move, x: Move)
  {
    && x.toRow == m.toRow && x.toCol == m.toCol
    && GetPiece(b, x.fromRow, x.fromCol).Some? && GetPiece(b, x.fromRow, x.fromCol).value.kind == kind
    && (x.fromRow != m.fromRow || x.fromCol != m.fromCol)
  }

  /** The rivals among `ms`, in order. */
  function RivalsIn(b: Board, kind: PieceType, m: Move, ms: seq<Move>): (r: seq<Move>)
    ensures forall x :: x in r <==> x in ms && IsRival(b, kind, m, x)
  {
    if ms == [] then []
    else (if IsRival(b, kind, m, ms[0]) then [ms[0]] else []) + RivalsIn(b, kind, m, ms[1..])
  }

  /** The legal moves of the mover's side that rival `m`. */
  function Rivals(s: GameState, p: Piece, m: Move): seq<Move>
    requires ValidEp(s.ep)
  {
    RivalsIn(s.board, p.kind, m, AllLegalMoves(s, p.color))
  }

  predicate SharesFile(rivals: seq<Move>, col: int)
  {
    exists i | 0 <= i < |rivals| :: rivals[i].fromCol == col
  }

  predicate SharesRank(rivals: seq<Move>, row: int)
  {
    exists i | 0 <= i < |rivals| :: rivals[i].fromRow == row
  }

  /**
   * Disambiguation (section 8.2.3.4 of the PGN standard): nothing without
   * rivals; the origin file if no rival shares it; else the origin rank if
   * no rival shares it; else the whole origin square.
   */
  function Qualify(rivals: seq<Move>, m: Move): Qualifier
  {
    if rivals == [] then Unqualified
    else if !SharesFile(rivals, m.fromCol) then ByFile(m.fromCol)
    else if !SharesRank(rivals, m.fromRow) then ByRank(m.fromRow)
    else BySquare(m.fromRow, m.fromCol)
  }

  /**
   * The move as the notation hands it to the game manager: a promotion
   * carries its choice, a queen by default; any other move carries none.
   */
  function Submitted(m: Move): (r: Move)
    ensures r.fromRow == m.fromRow && r.fromCol == m.fromCol && r.toRow == m.toRow && r.toCol == m.toCol
    ensures r.special == m.special
    ensures r.promotion.Some? <==> m.special == Promotion
    ensures m.special == Promotion ==> PromotionKind(r) == PromotionKind(m)
  {
    m.(promotion := if m.special == Promotion then Some(PromotionKind(m)) else None)
  }

  /** Whether a move can be made does not depend on the promotion it carries. */
  lemma SubmittedCanMake(s: GameState, m: Move)
    requires CanMake(s, m)
    ensures CanMake(s, Submitted(m))
  {
  }

  /** The notation's precondition: the origin is on the board, and if it holds a piece the move can be made. */
  predicate SanReady(s: GameState, m: Move)
  {
    InBounds(m.fromRow, m.fromCol) && (s.board[m.fromRow][m.fromCol].Some? ==> CanMake(s, m))
  }

  /** The shape of the SAN of a move whose origin holds a piece. */
  function Shape(s: GameState, m: Move): (shape: SanShape)
    requires ValidEp(s.ep) && CanMake(s, m)
    ensures WellFormed(shape)
  {
    var p := s.board[m.fromRow][m.fromCol].value;
    if m.special == CastleKing then Castle(false)
    else if m.special == CastleQueen then Castle(true)
    else if p.kind == Pawn then
      PawnSan(if IsCapture(s.board, m) then Some(m.fromCol) else None, m.toRow, m.toCol,
              if m.special == Promotion then Some(PromotionKind(m)) else None)
    else
      PieceSan(p.kind, Qualify(Rivals(s, p, m), m), IsCapture(s.board, m), m.toRow, m.toCol)
  }

  /** The mark: the status of the position the move leads to (section 8.2.3.5 of the PGN standard). */
  function MarkOf(s: GameState, m: Move): Mark
    requires CanMake(s, m)
  {
    var status := MakeMove(s, Submitted(m)).status;
    if status == Checkmate then MateMark
    else if status == Check then CheckMark
    else NoMark
  }

  /** SAN of a move: empty exactly when the origin is empty. */
  function MoveToSan(s: GameState, m: Move): (san: string)
    requires ValidEp(s.ep) && SanReady(s, m)
    ensures san == [] <==> s.board[m.fromRow][m.fromCol].None?
  {
    if s.board[m.fromRow][m.fromCol].None? then []
    else
      var shape := Shape(s, m);
      BodyEnd(shape);
      Render(shape, MarkOf(s, m))
  }

  /** The SAN of a move from an occupied square reads back as the move's shape and mark. */
  lemma MoveToSanReadsBack(s: GameState, m: Move)
    requires ValidEp(s.ep) && CanMake(s, m)
    ensures ParseSan(MoveToSan(s, m)) == Some((Shape(s, m), MarkOf(s, m)))
  {
    ParseRender(Shape(s, m), MarkOf(s, m));
  }

  // ---------------------------------------------------------------------
  // Reading a move
  // ---------------------------------------------------------------------

  const PromotionChoices: seq<PieceType> := [Queen, Rook, Bishop, Knight]

  /** `x` is one of the candidates `m` expands to. */
  predicate ExpandsTo(m: Move, x: Move)
  {
    || (m.special != Promotion && x == m)
    || (m.special == Promotion && x.promotion.Some? && x.promotion.value in PromotionChoices
        && x == m.(promotion := x.promotion))
  }

  /** Each promotion replaced by its four choices, queen first; other moves kept. */
  function Expand(ms: seq<Move>): seq<Move>
  {
    if ms == [] then []
    else
      var m := ms[0];
      (if m.special == Promotion
       then [m.(promotion := Some(Queen)), m.(promotion := Some(Rook)),
             m.(promotion := Some(Bishop)), m.(promotion := Some(Knight))]
       else [m])
      + Expand(ms[1..])
  }

  /** The candidates are exactly the expansions of the moves. */
  lemma {:induction false} ExpandIff(ms: seq<Move>, x: Move)
    ensures x in Expand(ms) <==> exists i | 0 <= i < |ms| :: ExpandsTo(ms[i], x)
  {
    if ms != [] {
      ExpandIff(ms[1..], x);
      if x in Expand(ms[1..]) {
        var i :| 0 <= i < |ms[1..]| && ExpandsTo(ms[1..][i], x);
        assert ms[1..][i] == ms[i + 1];
      }
      if exists i | 1 <= i < |ms| :: ExpandsTo(ms[i], x) {
        var i :| 1 <= i < |ms| && ExpandsTo(ms[i], x);
        assert ms[1..][i - 1] == ms[i];
      }
      if ExpandsTo(ms[0], x) && ms[0].special == Promotion {
        assert x.promotion.value in PromotionChoices;
      }
    }
  }

  /** A candidate expanded from a legal move can be made, and so rendered. */
  lemma CandidateReady(s: GameState, color: Color, m: Move, x: Move)
    requires ValidEp(s.ep) && m in AllLegalMoves(s, color) && ExpandsTo(m, x)
    ensures SanReady(s, x) && CanMake(s, x)
  {
    if m.special == Promotion {
      assert x.promotion.value in PromotionChoices;
      LegalCanMake(s, color, m, x.promotion);
    } else {
      AllLegalIff(s, color, m);
      LegalCanMake(s, color, m, None);
      assert m.(promotion := None) == x;
    }
  }

  /** Every candidate the reader tries can be rendered. */
  lemma ExpandReady(s: GameState, color: Color)
    requires ValidEp(s.ep)
    ensures forall x | x in Expand(AllLegalMoves(s, color)) :: SanReady(s, x) && CanMake(s, x)
  {
    var ms := AllLegalMoves(s, color);
    forall x | x in Expand(ms)
      ensures SanReady(s, x) && CanMake(s, x)
    {
      ExpandIff(ms, x);
      var i :| 0 <= i < |ms| && ExpandsTo(ms[i], x);
      CandidateReady(s, color, ms[i], x);
    }
  }

  /** Drops a trailing run of '?' and '!' annotation signs. */
  function StripAnnotations(t: string): (r: string)
    ensures |r| <= |t| && r == t[..|r|]
    ensures forall i | |r| <= i < |t| :: t[i] == '?' || t[i] == '!'
    ensures r == [] || (r[|r| - 1] != '?' && r[|r| - 1] != '!')
  {
    if t != [] && (t[|t| - 1] == '?' || t[|t| - 1] == '!') then
      var r := StripAnnotations(t[..|t| - 1]);
      assert t[..|t| - 1][..|r|] == t[..|r|];
      r
    else t
  }

  /** The text the reader matches: trimmed, annotation signs removed. */
  function Clean(san: string): string
  {
    StripAnnotations(Trim(san))
  }

  /** The first of `ms` whose SAN is `t`, trying them in order. */
  function FirstBySan(s: GameState, ms: seq<Move>, t: string): Option<Move>
    requires ValidEp(s.ep) && forall i | 0 <= i < |ms| :: SanReady(s, ms[i])
  {
    if ms == [] then None
    else if MoveToSan(s, ms[0]) == t then Some(ms[0])
    else FirstBySan(s, ms[1..], t)
  }

  /** Coordinate text: origin and destination names, then an optional promotion letter in either case. */
  predicate CoordinateForm(t: string)
  {
    && (|t| == 4 || |t| == 5)
    && IsFileChar(t[0]) && IsRankChar(t[1]) && IsFileChar(t[2]) && IsRankChar(t[3])
    && (|t| == 5 ==> t[4] in "qrbnQRBN")
  }

  /** The promotion piece a coordinate text asks for: its letter, a queen when it has none. */
  function WantedPromotion(t: string): PieceType
  {
    if |t| == 5 && (t[4] == 'r' || t[4] == 'R') then Rook
    else if |t| == 5 && (t[4] == 'b' || t[4] == 'B') then Bishop
    else if |t| == 5 && (t[4] == 'n' || t[4] == 'N') then Knight
    else Queen
  }

  /** A move the coordinates select: origin and destination agree, and a promotion carries the wanted piece. */
  predicate CoordinateMatch(m: Move, from: Pos, to: Pos, wanted: PieceType)
  {
    && m.fromRow == from.row && m.fromCol == from.col && m.toRow == to.row && m.toCol == to.col
    && (m.special == Promotion ==> m.promotion == Some(wanted))
  }

  /** The first move the coordinates select. */
  function FirstByCoordinates(ms: seq<Move>, from: Pos, to: Pos, wanted: PieceType): (r: Option<Move>)
    ensures r.None? <==> forall i | 0 <= i < |ms| :: !CoordinateMatch(ms[i], from, to, wanted)
    ensures r.Some? ==> exists i | 0 <= i < |ms| :: ms[i] == r.value && CoordinateMatch(ms[i], from, to, wanted)
                                                 && forall j | 0 <= j < i :: !CoordinateMatch(ms[j], from, to, wanted)
  {
    if ms == [] then None
    else if CoordinateMatch(ms[0], from, to, wanted) then Some(ms[0])
    else
      var r := FirstByCoordinates(ms[1..], from, to, wanted);
      assert forall i | 1 <= i < |ms| :: ms[i] == ms[1..][i - 1];
      r
  }

  /** The squares named by a coordinate text. */
  function CoordinateSquares(t: string): (Pos, Pos)
    requires CoordinateForm(t)
  {
    var from := FromSquareName(t[..2]);
    var to := FromSquareName(t[2..4]);
    (Pos(from.row.value, from.col), Pos(to.row.value, to.col))
  }

  /**
   * Read a move of the side to move: nothing for empty text; otherwise the
   * first promotion-expanded legal move whose SAN is the cleaned text, and
   * failing that, for coordinate text, the first one the coordinates select.
   */
  function SanToMove(s: GameState, san: string): (r: Option<Move>)
    requires ValidEp(s.ep)
    ensures san == [] ==> r == None
  {
    if san == [] then None
    else
      var cleaned := Clean(san);
      var candidates := Expand(AllLegalMoves(s, s.turn));
      ExpandReady(s, s.turn);
      match FirstBySan(s, candidates, cleaned)
      case Some(m) => Some(m)
      case None =>
        if CoordinateForm(cleaned) then
          var (from, to) := CoordinateSquares(cleaned);
          FirstByCoordinates(candidates, from, to, WantedPromotion(cleaned))
        else None
  }

  // ---------------------------------------------------------------------
  // Board description
  // ---------------------------------------------------------------------

  /** One character per square: '.' for empty, the piece letter, upper case for white. */
  function PieceChar(cell: Option<Piece>): char
  {
    match cell
    case None => '.'
    case Some(p) =>
      var c := match p.kind
        case King => 'k' case Queen => 'q' case Rook => 'r' case Bishop => 'b' case Knight => 'n' case Pawn => 'p';
      if p.color == White then (c as int - 32) as char else c
  }

  /** The square a description character stands for. */
  function CellOfChar(c: char): Option<Piece>
  {
    var lower := if 'A' <= c <= 'Z' then (c as int + 32) as char else c;
    var color := if 'A' <= c <= 'Z' then White else Black;
    if lower == 'k' then Some(Piece(King, color))
    else if lower == 'q' then Some(Piece(Queen, color))
    else if lower == 'r' then Some(Piece(Rook, color))
    else if lower == 'b' then Some(Piece(Bishop, color))
    else if lower == 'n' then Some(Piece(Knight, color))
    else if lower == 'p' then Some(Piece(Pawn, color))
    else None
  }

  lemma CellOfPieceChar(cell: Option<Piece>)
    ensures CellOfChar(PieceChar(cell)) == cell
  {
  }

  /** One line: the rank, a colon and a space, then the eight squares separated by spaces. */
  function RankLine(b: Board, row: int): string
    requires 0 <= row < 8
  {
    [RankChar(row), ':', ' '] + Join(seq(8, c requires 0 <= c < 8 => [PieceChar(b[row][c])]), " ")
  }

  /** The board as eight lines, rank 8 first. */
  function BoardToDescription(b: Board): string
  {
    Join(seq(8, r requires 0 <= r < 8 => RankLine(b, r)), "\n")
  }

  // ---------------------------------------------------------------------
  // Move list
  // ---------------------------------------------------------------------

  /**
   * SAN of each move of `ms`, each written in the position before it, the
   * moves replayed from `s`. Absent when a move cannot be made there.
   */
  function ReplaySans(s: GameState, ms: seq<Move>): (r: Option<seq<string>>)
    requires ValidEp(s.ep)
    decreases |ms|
  {
    if ms == [] then Some([])
    else if !CanMake(s, ms[0]) then None
    else
      SubmittedCanMake(s, ms[0]);
      var san := MoveToSan(s, ms[0]);
      var next := MakeMove(s, Submitted(ms[0]));
      match ReplaySans(next, ms[1..])
      case None => None
      case Some(rest) => Some([san] + rest)
  }

  /** The entry for the move pair starting at index i: number, dot, white's SAN, black's SAN if non-empty. */
  function PairText(sans: seq<string>, i: nat): string
    requires i < |sans|
  {
    var number := NatToString(i / 2 + 1) + ". " + sans[i];
    if i + 1 < |sans| && sans[i + 1] != [] then number + " " + sans[i + 1] else number
  }

  /** The entries for the pairs starting at i, i + 2, ... */
  function PairTexts(sans: seq<string>, i: nat): seq<string>
    requires i % 2 == 0
    decreases |sans| - i
  {
    if i >= |sans| then [] else [PairText(sans, i)] + PairTexts(sans, i + 2)
  }

  /**
   * The numbered move list of a game, replayed from the initial position;
   * absent when the history contains a move that cannot be made.
   */
  function MoveHistoryToString(s: GameState): Option<string>
  {
    if s.moveHistory == [] then Some([])
    else
      match ReplaySans(InitialState(), s.moveHistory)
      case None => None
      case Some(sans) => Some(Join(PairTexts(sans, 0), " "))
  }
}
