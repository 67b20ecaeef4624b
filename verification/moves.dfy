/**
 * Attack detection and move generation: square attacks, check, per-piece
 * pseudo-legal targets, the legality filter that replays a move's side
 * effects on a copy of the board, and the row-major collection of every
 * legal move of one colour.
 */
module Moves {
  import opened Types
  import opened Boards

  /** Row step of a pawn: white pawns travel towards row 0, black towards row 7. */
  function Forward(color: Color): int
  {
    if color == White then -1 else 1
  }

  /** Row from which a pawn may advance two squares. */
  function StartRow(color: Color): int
  {
    if color == White then 6 else 1
  }

  /** Row on which a pawn promotes. */
  function PromoRow(color: Color): int
  {
    if color == White then 0 else 7
  }

  /** Home row of the king and rooks. */
  function BaseRow(color: Color): int
  {
    if color == White then 7 else 0
  }

  /** `x + d * k` for a unit step `d` in {-1, 0, 1}, written without multiplication. */
  function Along(x: int, d: int, k: int): int
  {
    if d < 0 then x - k else if d > 0 then x + k else x
  }

  const KnightOffsets: seq<(int, int)> := [(-2, -1), (-2, 1), (-1, -2), (-1, 2), (1, -2), (1, 2), (2, -1), (2, 1)]

  /** The eight neighbours, in the order of the nested dr/dc loops. */
  const KingOffsets: seq<(int, int)> := [(-1, -1), (-1, 0), (-1, 1), (0, -1), (0, 1), (1, -1), (1, 0), (1, 1)]

  const Diagonals: seq<(int, int)> := [(-1, -1), (-1, 1), (1, -1), (1, 1)]

  const Straights: seq<(int, int)> := [(-1, 0), (1, 0), (0, -1), (0, 1)]

  const QueenDirs: seq<(int, int)> := Diagonals + Straights

  // ---------------------------------------------------------------------
  // Attacks
  // ---------------------------------------------------------------------

  /** The (possibly off-board) square holds exactly this piece. */
  predicate HasPiece(b: Board, row: int, col: int, kind: PieceType, color: Color)
  {
    GetPiece(b, row, col) == Some(Piece(kind, color))
  }

  /** A pawn of `byColor` stands one row behind (row, col), on an adjacent file. */
  predicate PawnAttack(b: Board, row: int, col: int, byColor: Color)
  {
    var pr := row - Forward(byColor);
    HasPiece(b, pr, col - 1, Pawn, byColor) || HasPiece(b, pr, col + 1, Pawn, byColor)
  }

  /** Some offset from index i on leads from (row, col) to a `kind` of `byColor`. */
  predicate OffsetAttack(b: Board, row: int, col: int, offsets: seq<(int, int)>, i: nat,
                         kind: PieceType, byColor: Color)
    requires i <= |offsets|
    decreases |offsets| - i
  {
    i < |offsets|
    && (HasPiece(b, row + offsets[i].0, col + offsets[i].1, kind, byColor)
        || OffsetAttack(b, row, col, offsets, i + 1, kind, byColor))
  }

  /**
   * The ray scan from distance i onward: the first occupied square on the
   * ray decides, and it attacks when it is a `kind` or a queen of `byColor`.
   */
  predicate RayAttack(b: Board, row: int, col: int, dr: int, dc: int, i: int,
                      kind: PieceType, byColor: Color)
    requires 1 <= i
    decreases 8 - i
  {
    if i >= 8 then false
    else
      var r := Along(row, dr, i);
      var c := Along(col, dc, i);
      if !InBounds(r, c) then false
      else match b[r][c]
        case None => RayAttack(b, row, col, dr, dc, i + 1, kind, byColor)
        case Some(p) => p.color == byColor && (p.kind == kind || p.kind == Queen)
  }

  /** Some direction from index j on carries a ray attack. */
  predicate LineAttack(b: Board, row: int, col: int, dirs: seq<(int, int)>, j: nat,
                       kind: PieceType, byColor: Color)
    requires j <= |dirs|
    decreases |dirs| - j
  {
    j < |dirs|
    && (RayAttack(b, row, col, dirs[j].0, dirs[j].1, 1, kind, byColor)
        || LineAttack(b, row, col, dirs, j + 1, kind, byColor))
  }

  /** Whether a piece of `byColor` could capture on (row, col) next move. */
  predicate IsSquareAttacked(b: Board, row: int, col: int, byColor: Color)
  {
    || PawnAttack(b, row, col, byColor)
    || OffsetAttack(b, row, col, KnightOffsets, 0, Knight, byColor)
    || OffsetAttack(b, row, col, KingOffsets, 0, King, byColor)
    || LineAttack(b, row, col, Diagonals, 0, Bishop, byColor)
    || LineAttack(b, row, col, Straights, 0, Rook, byColor)
  }

  /** The first king of `color` is attacked; a board without that king is never in check. */
  predicate IsInCheck(b: Board, color: Color)
  {
    match FindKing(b, color)
    case None => false
    case Some(k) => IsSquareAttacked(b, k.row, k.col, Opponent(color))
  }

  // ---------------------------------------------------------------------
  // Pseudo-legal targets
  // ---------------------------------------------------------------------

  /** Empty, or holding a piece of the other colour. */
  predicate CanLand(b: Board, row: int, col: int, color: Color)
    requires InBounds(row, col)
  {
    b[row][col].None? || b[row][col].value.color == Opponent(color)
  }

  predicate AllInBounds(ts: seq<Target>)
  {
    forall t | t in ts :: InBounds(t.row, t.col)
  }

  /** Single push (tagged on the last rank) and the double push from the start row. */
  function PawnPushes(b: Board, row: int, col: int, color: Color): (r: seq<Target>)
    requires InBounds(row, col)
    ensures AllInBounds(r)
  {
    var f1 := row + Forward(color);
    if InBounds(f1, col) && b[f1][col].None? then
      [Target(f1, col, if f1 == PromoRow(color) then Promotion else Plain)]
      + (if row == StartRow(color) && b[row + 2 * Forward(color)][col].None?
         then [Target(row + 2 * Forward(color), col, DoublePush)]
         else [])
    else []
  }

  /** Diagonal capture towards file col + dc. */
  function PawnCapture(b: Board, row: int, col: int, color: Color, dc: int): (r: seq<Target>)
    ensures AllInBounds(r)
  {
    var cr := row + Forward(color);
    var cc := col + dc;
    if InBounds(cr, cc) && b[cr][cc].Some? && b[cr][cc].value.color == Opponent(color)
    then [Target(cr, cc, if cr == PromoRow(color) then Promotion else Plain)]
    else []
  }

  /** Capture onto the tracked en-passant square; the colour of the pushing side is not consulted. */
  function EnPassantMoves(row: int, col: int, color: Color, ep: Option<Pos>): (r: seq<Target>)
    requires ValidEp(ep)
    ensures AllInBounds(r)
  {
    match ep
    case None => []
    case Some(p) =>
      if row + Forward(color) == p.row && (col - p.col == 1 || p.col - col == 1)
      then [Target(p.row, p.col, EnPassant)]
      else []
  }

  function PawnMoves(b: Board, row: int, col: int, color: Color, ep: Option<Pos>): (r: seq<Target>)
    requires InBounds(row, col) && ValidEp(ep)
    ensures AllInBounds(r)
  {
    PawnPushes(b, row, col, color)
    + PawnCapture(b, row, col, color, -1)
    + PawnCapture(b, row, col, color, 1)
    + EnPassantMoves(row, col, color, ep)
  }

  /** Fixed-offset steps (knight, king) that stay on the board and do not land on an own piece. */
  function OffsetMoves(b: Board, row: int, col: int, color: Color, offsets: seq<(int, int)>, i: nat)
    : (r: seq<Target>)
    requires i <= |offsets|
    decreases |offsets| - i
    ensures AllInBounds(r)
  {
    if i == |offsets| then []
    else
      var r := row + offsets[i].0;
      var c := col + offsets[i].1;
      (if InBounds(r, c) && CanLand(b, r, c, color) then [Target(r, c, Plain)] else [])
      + OffsetMoves(b, row, col, color, offsets, i + 1)
  }

  /** One ray of a sliding piece from distance i on: empty squares, then an enemy piece, then stop. */
  function RayMoves(b: Board, row: int, col: int, dr: int, dc: int, i: int, color: Color)
    : (r: seq<Target>)
    requires 1 <= i
    decreases 8 - i
    ensures AllInBounds(r)
  {
    if i >= 8 then []
    else
      var r := Along(row, dr, i);
      var c := Along(col, dc, i);
      if !InBounds(r, c) then []
      else match b[r][c]
        case None => [Target(r, c, Plain)] + RayMoves(b, row, col, dr, dc, i + 1, color)
        case Some(p) => if p.color == Opponent(color) then [Target(r, c, Plain)] else []
  }

  /** The rays of every direction from index j on, in order. */
  function SlidingMoves(b: Board, row: int, col: int, dirs: seq<(int, int)>, j: nat, color: Color)
    : (r: seq<Target>)
    requires j <= |dirs|
    decreases |dirs| - j
    ensures AllInBounds(r)
  {
    if j == |dirs| then []
    else RayMoves(b, row, col, dirs[j].0, dirs[j].1, 1, color) + SlidingMoves(b, row, col, dirs, j + 1, color)
  }

  function KingSideRight(rights: Rights, color: Color): bool
  {
    if color == White then rights.whiteKing else rights.blackKing
  }

  function QueenSideRight(rights: Rights, color: Color): bool
  {
    if color == White then rights.whiteQueen else rights.blackQueen
  }

  /**
   * Castling from the king's home square: the flag, empty squares between
   * king and rook, and unattacked start, transit and destination squares.
   * Whether a rook stands on the corner is not examined.
   */
  function CastlingMoves(b: Board, row: int, col: int, color: Color, rights: Rights): (r: seq<Target>)
    ensures AllInBounds(r)
  {
    var base := BaseRow(color);
    var opp := Opponent(color);
    if row == base && col == 4 then
      (if KingSideRight(rights, color)
          && b[base][5].None? && b[base][6].None?
          && !IsSquareAttacked(b, base, 4, opp)
          && !IsSquareAttacked(b, base, 5, opp)
          && !IsSquareAttacked(b, base, 6, opp)
       then [Target(base, 6, CastleKing)]
       else [])
      + (if QueenSideRight(rights, color)
            && b[base][1].None? && b[base][2].None? && b[base][3].None?
            && !IsSquareAttacked(b, base, 4, opp)
            && !IsSquareAttacked(b, base, 3, opp)
            && !IsSquareAttacked(b, base, 2, opp)
         then [Target(base, 2, CastleQueen)]
         else [])
    else []
  }

  /** Pseudo-legal targets of the piece on (row, col); none for an empty square. */
  function RawMoves(b: Board, row: int, col: int, ep: Option<Pos>, rights: Rights): (r: seq<Target>)
    requires InBounds(row, col) && ValidEp(ep)
    ensures AllInBounds(r)
    ensures b[row][col].None? ==> r == []
  {
    match b[row][col]
    case None => []
    case Some(p) =>
      match p.kind
      case Pawn => PawnMoves(b, row, col, p.color, ep)
      case Knight => OffsetMoves(b, row, col, p.color, KnightOffsets, 0)
      case Bishop => SlidingMoves(b, row, col, Diagonals, 0, p.color)
      case Rook => SlidingMoves(b, row, col, Straights, 0, p.color)
      case Queen => SlidingMoves(b, row, col, QueenDirs, 0, p.color)
      case King => OffsetMoves(b, row, col, p.color, KingOffsets, 0) + CastlingMoves(b, row, col, p.color, rights)
  }

  // ---------------------------------------------------------------------
  // Legality
  // ---------------------------------------------------------------------

  /** The target can be replayed on a copy of the board without leaving it. */
  predicate Replayable(row: int, col: int, t: Target, color: Color)
  {
    && InBounds(row, col) && InBounds(t.row, t.col)
    && (t.special == EnPassant ==> InBounds(t.row - Forward(color), t.col))
  }

  /**
   * The board the legality filter inspects: the piece relocated, the
   * passed pawn removed for en passant, the rook relocated for castling.
   * Promotion is not replayed (the pawn stays a pawn).
   */
  function Simulate(b: Board, row: int, col: int, t: Target, color: Color): Board
    requires Replayable(row, col, t, color)
  {
    var moved := Put(Put(b, t.row, t.col, b[row][col]), row, col, None);
    var afterEp := if t.special == EnPassant then Put(moved, t.row - Forward(color), t.col, None) else moved;
    if t.special == CastleKing then Put(Put(afterEp, t.row, 5, afterEp[t.row][7]), t.row, 7, None)
    else if t.special == CastleQueen then Put(Put(afterEp, t.row, 3, afterEp[t.row][0]), t.row, 0, None)
    else afterEp
  }

  /** After replaying the target, the mover's king is not attacked. */
  predicate Safe(b: Board, row: int, col: int, t: Target, color: Color)
    requires Replayable(row, col, t, color)
  {
    !IsInCheck(Simulate(b, row, col, t, color), color)
  }

  /** The targets that keep the mover's king safe, in their original order. */
  function FilterLegal(b: Board, row: int, col: int, ts: seq<Target>, color: Color): (r: seq<Target>)
    requires forall t | t in ts :: Replayable(row, col, t, color)
    ensures forall t :: t in r <==> t in ts && Safe(b, row, col, t, color)
    ensures |r| <= |ts|
  {
    if ts == [] then []
    else
      (if Safe(b, row, col, ts[0], color) then [ts[0]] else [])
      + FilterLegal(b, row, col, ts[1..], color)
  }

  /** Legal targets of the piece on (row, col), whoever's turn it is; none for an empty square. */
  function LegalMoves(s: GameState, row: int, col: int): (r: seq<Target>)
    requires ValidEp(s.ep)
    ensures GetPiece(s.board, row, col).None? ==> r == []
    ensures AllInBounds(r)
  {
    match GetPiece(s.board, row, col)
    case None => []
    case Some(p) =>
      var raw := RawMoves(s.board, row, col, s.ep, s.rights);
      RawReplayable(s.board, row, col, s.ep, s.rights);
      FilterLegal(s.board, row, col, raw, p.color)
  }

  /** Every raw target of a piece can be replayed for that piece's colour. */
  lemma RawReplayable(b: Board, row: int, col: int, ep: Option<Pos>, rights: Rights)
    requires InBounds(row, col) && ValidEp(ep) && b[row][col].Some?
    ensures forall t | t in RawMoves(b, row, col, ep, rights) :: Replayable(row, col, t, b[row][col].value.color)
  {
    var p := b[row][col].value;
    forall t | t in RawMoves(b, row, col, ep, rights)
      ensures Replayable(row, col, t, p.color)
    {
      if t.special == EnPassant {
        assert p.kind == Pawn by {
          if p.kind != Pawn {
            NoEnPassantOutsidePawns(b, row, col, ep, rights, t);
          }
        }
        assert t in EnPassantMoves(row, col, p.color, ep) by {
          NoEnPassantPush(b, row, col, p.color, t);
        }
      }
    }
  }

  /** Only the pawn's en-passant branch produces an en-passant tag. */
  lemma NoEnPassantOutsidePawns(b: Board, row: int, col: int, ep: Option<Pos>, rights: Rights, t: Target)
    requires InBounds(row, col) && ValidEp(ep) && b[row][col].Some? && b[row][col].value.kind != Pawn
    requires t in RawMoves(b, row, col, ep, rights)
    ensures t.special != EnPassant
  {
    var p := b[row][col].value;
    match p.kind
    case Knight => OffsetMovesPlain(b, row, col, p.color, KnightOffsets, 0);
    case Bishop => SlidingMovesPlain(b, row, col, Diagonals, 0, p.color);
    case Rook => SlidingMovesPlain(b, row, col, Straights, 0, p.color);
    case Queen => SlidingMovesPlain(b, row, col, QueenDirs, 0, p.color);
    case King => OffsetMovesPlain(b, row, col, p.color, KingOffsets, 0);
  }

  /** An en-passant tag among a pawn's targets comes from the en-passant branch. */
  lemma NoEnPassantPush(b: Board, row: int, col: int, color: Color, t: Target)
    requires InBounds(row, col)
    ensures t in PawnPushes(b, row, col, color) ==> t.special != EnPassant
    ensures t in PawnCapture(b, row, col, color, -1) ==> t.special != EnPassant
    ensures t in PawnCapture(b, row, col, color, 1) ==> t.special != EnPassant
  {
  }

  lemma {:induction false} OffsetMovesPlain(b: Board, row: int, col: int, color: Color, offsets: seq<(int, int)>, i: nat)
    requires i <= |offsets|
    decreases |offsets| - i
    ensures forall t | t in OffsetMoves(b, row, col, color, offsets, i) :: t.special == Plain
  {
    if i < |offsets| {
      OffsetMovesPlain(b, row, col, color, offsets, i + 1);
    }
  }

  lemma {:induction false} RayMovesPlain(b: Board, row: int, col: int, dr: int, dc: int, i: int, color: Color)
    requires 1 <= i
    decreases 8 - i
    ensures forall t | t in RayMoves(b, row, col, dr, dc, i, color) :: t.special == Plain
  {
    if i < 8 && InBounds(Along(row, dr, i), Along(col, dc, i)) {
      RayMovesPlain(b, row, col, dr, dc, i + 1, color);
    }
  }

  lemma {:induction false} SlidingMovesPlain(b: Board, row: int, col: int, dirs: seq<(int, int)>, j: nat, color: Color)
    requires j <= |dirs|
    decreases |dirs| - j
    ensures forall t | t in SlidingMoves(b, row, col, dirs, j, color) :: t.special == Plain
  {
    if j < |dirs| {
      RayMovesPlain(b, row, col, dirs[j].0, dirs[j].1, 1, color);
      SlidingMovesPlain(b, row, col, dirs, j + 1, color);
    }
  }

  // ---------------------------------------------------------------------
  // All legal moves of one colour
  // ---------------------------------------------------------------------

  /** Turn a piece's targets into moves from (row, col), without a promotion choice. */
  function Lift(row: int, col: int, ts: seq<Target>): (r: seq<Move>)
    ensures |r| == |ts|
    ensures forall i | 0 <= i < |ts| :: r[i] == Move(row, col, ts[i].row, ts[i].col, ts[i].special, None)
  {
    seq(|ts|, i requires 0 <= i < |ts| => Move(row, col, ts[i].row, ts[i].col, ts[i].special, None))
  }

  /** An 8×8 table with one entry per square, indexed [row][col]. */
  predicate IsTable<T>(t: seq<seq<T>>)
  {
    |t| == 8 && forall r | 0 <= r < 8 :: |t[r]| == 8
  }

  /** The legal targets of every square. */
  function LegalTable(s: GameState): (t: seq<seq<seq<Target>>>)
    requires ValidEp(s.ep)
    ensures IsTable(t)
  {
    seq(8, r requires 0 <= r < 8 => seq(8, c requires 0 <= c < 8 => LegalMoves(s, r, c)))
  }

  /** Row-major collection, from square (row, col) onward, of the targets of the pieces of `color`. */
  function Collect(b: Board, color: Color, table: seq<seq<seq<Target>>>, row: int, col: int): seq<Move>
    requires 0 <= row <= 8 && 0 <= col <= 8 && IsTable(table)
    decreases 8 - row, 8 - col
  {
    if row == 8 then []
    else if col == 8 then Collect(b, color, table, row + 1, 0)
    else
      (if b[row][col].Some? && b[row][col].value.color == color
       then Lift(row, col, table[row][col])
       else [])
      + Collect(b, color, table, row, col + 1)
  }

  /** Every legal move of `color`, scanning squares in row-major order. */
  function AllLegalMoves(s: GameState, color: Color): seq<Move>
    requires ValidEp(s.ep)
  {
    Collect(s.board, color, LegalTable(s), 0, 0)
  }
}
