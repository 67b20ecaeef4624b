/**
 * Value types shared by the whole engine: pieces, the 8×8 board, moves,
 * castling rights and the game record. Every transition of the engine builds
 * a new value of these types; nothing is mutated.
 */
module Types {

  datatype Option<+T> = None | Some(value: T)

  datatype Color = White | Black

  datatype PieceType = Pawn | Knight | Bishop | Rook | Queen | King

  datatype Piece = Piece(kind: PieceType, color: Color)

  /** The other side. */
  function Opponent(c: Color): Color
  {
    if c == White then Black else White
  }

  /** Shape of a board: 8 rows of 8 cells. */
  predicate IsGrid(g: seq<seq<Option<Piece>>>)
  {
    |g| == 8 && forall r | 0 <= r < 8 :: |g[r]| == 8
  }

  function EmptyGrid(): seq<seq<Option<Piece>>>
  {
    seq(8, _ => seq(8, _ => None))
  }

  /**
   * An 8×8 grid of optional pieces. Row 0 is rank 8 and row 7 is rank 1;
   * column 0 is file a and column 7 is file h.
   */
  type Board = g: seq<seq<Option<Piece>>> | IsGrid(g) witness EmptyGrid()

  /** A square given by row and column (not necessarily on the board). */
  datatype Pos = Pos(row: int, col: int)

  /** The `special` tag a generated move carries; `Plain` is the untagged move. */
  datatype Special = Plain | DoublePush | EnPassant | CastleKing | CastleQueen | Promotion

  /**
   * A move as the engine exchanges it: origin, destination, tag and the
   * promotion choice (absent for every generated move; set by callers).
   */
  datatype Move = Move(fromRow: int, fromCol: int, toRow: int, toCol: int,
                       special: Special, promotion: Option<PieceType>)

  /** One entry produced by the per-piece generator: destination and tag. */
  datatype Target = Target(row: int, col: int, special: Special)

  /** The four independent castling flags. */
  datatype Rights = Rights(whiteKing: bool, whiteQueen: bool, blackKing: bool, blackQueen: bool)

  datatype Status = Playing | Check | Checkmate | Stalemate | Draw

  /**
   * One occupied square in a position key: row and column digits, the first
   * letter of the piece type name and the first letter of the colour name.
   */
  datatype KeyEntry = KeyEntry(row: int, col: int, letter: char, colorLetter: char)

  /**
   * The repetition key of a position: the side to move followed by one entry
   * per occupied square in row-major order. It stands for the concatenated
   * string the game keeps; every entry has a fixed width of four characters,
   * so equal keys and equal strings coincide.
   */
  datatype PositionKey = PositionKey(turn: Color, entries: seq<KeyEntry>)

  /** The authoritative game record. `status` is always derived from the rest. */
  datatype GameState = GameState(
    board: Board,
    turn: Color,
    rights: Rights,
    ep: Option<Pos>,
    halfMoveClock: nat,
    moveHistory: seq<Move>,
    positionHistory: seq<PositionKey>,
    capturedWhite: seq<Piece>,
    capturedBlack: seq<Piece>,
    status: Status,
    lastMove: Option<(Pos, Pos)>)
}
