/**
 * The fixed data of the engine: the back-rank order, the starting layout,
 * the material values and the piece-square tables.
 */
module Constants {
  import opened Types
  import opened Boards

  /** Back-rank order from file a to file h. */
  const BackRank: seq<PieceType> := [Rook, Knight, Bishop, Queen, King, Bishop, Knight, Rook]

  const KingValue: int := 20000

  /** Material value of each piece type. */
  function PieceValue(t: PieceType): (v: int)
    ensures 0 < v <= KingValue
    ensures t != King ==> v < KingValue
    ensures t == King ==> v == KingValue
  {
    match t
    case Pawn => 100
    case Knight => 320
    case Bishop => 330
    case Rook => 500
    case Queen => 900
    case King => 20000
  }

  /** Largest magnitude of any piece-square table entry. */
  const MaxBonus: int := 50

  predicate BonusInRange(x: int)
  {
    -MaxBonus <= x <= MaxBonus
  }

  /** Eight entries, each within the bonus range. */
  predicate RowInRange(row: seq<int>)
  {
    && |row| == 8
    && BonusInRange(row[0]) && BonusInRange(row[1]) && BonusInRange(row[2]) && BonusInRange(row[3])
    && BonusInRange(row[4]) && BonusInRange(row[5]) && BonusInRange(row[6]) && BonusInRange(row[7])
  }

  /** Eight rows, each well formed. */
  predicate TableInRange(t: seq<seq<int>>)
  {
    && |t| == 8
    && RowInRange(t[0]) && RowInRange(t[1]) && RowInRange(t[2]) && RowInRange(t[3])
    && RowInRange(t[4]) && RowInRange(t[5]) && RowInRange(t[6]) && RowInRange(t[7])
  }

  const PawnTable: seq<seq<int>> := [
    [0,  0,  0,  0,  0,  0,  0,  0],
    [50, 50, 50, 50, 50, 50, 50, 50],
    [10, 10, 20, 30, 30, 20, 10, 10],
    [5,  5, 10, 25, 25, 10,  5,  5],
    [0,  0,  0, 20, 20,  0,  0,  0],
    [5, -5,-10,  0,  0,-10, -5,  5],
    [5, 10, 10,-20,-20, 10, 10,  5],
    [0,  0,  0,  0,  0,  0,  0,  0]]

  lemma PawnTableInRange()
    ensures TableInRange(PawnTable)
  {
  }

  const KnightTable: seq<seq<int>> := [
    [-50,-40,-30,-30,-30,-30,-40,-50],
    [-40,-20,  0,  0,  0,  0,-20,-40],
    [-30,  0, 10, 15, 15, 10,  0,-30],
    [-30,  5, 15, 20, 20, 15,  5,-30],
    [-30,  0, 15, 20, 20, 15,  0,-30],
    [-30,  5, 10, 15, 15, 10,  5,-30],
    [-40,-20,  0,  5,  5,  0,-20,-40],
    [-50,-40,-30,-30,-30,-30,-40,-50]]

  lemma KnightTableInRange()
    ensures TableInRange(KnightTable)
  {
  }

  const BishopTable: seq<seq<int>> := [
    [-20,-10,-10,-10,-10,-10,-10,-20],
    [-10,  0,  0,  0,  0,  0,  0,-10],
    [-10,  0, 10, 10, 10, 10,  0,-10],
    [-10,  5,  5, 10, 10,  5,  5,-10],
    [-10,  0, 10, 10, 10, 10,  0,-10],
    [-10, 10, 10, 10, 10, 10, 10,-10],
    [-10,  5,  0,  0,  0,  0,  5,-10],
    [-20,-10,-10,-10,-10,-10,-10,-20]]

  lemma BishopTableInRange()
    ensures TableInRange(BishopTable)
  {
  }

  const RookTable: seq<seq<int>> := [
    [0,  0,  0,  0,  0,  0,  0,  0],
    [5, 10, 10, 10, 10, 10, 10,  5],
    [-5,  0,  0,  0,  0,  0,  0, -5],
    [-5,  0,  0,  0,  0,  0,  0, -5],
    [-5,  0,  0,  0,  0,  0,  0, -5],
    [-5,  0,  0,  0,  0,  0,  0, -5],
    [-5,  0,  0,  0,  0,  0,  0, -5],
    [0,  0,  0,  5,  5,  0,  0,  0]]

  lemma RookTableInRange()
    ensures TableInRange(RookTable)
  {
  }

  const QueenTable: seq<seq<int>> := [
    [-20,-10,-10, -5, -5,-10,-10,-20],
    [-10,  0,  0,  0,  0,  0,  0,-10],
    [-10,  0,  5,  5,  5,  5,  0,-10],
    [ -5,  0,  5,  5,  5,  5,  0, -5],
    [  0,  0,  5,  5,  5,  5,  0, -5],
    [-10,  5,  5,  5,  5,  5,  0,-10],
    [-10,  0,  5,  0,  0,  0,  0,-10],
    [-20,-10,-10, -5, -5,-10,-10,-20]]

  lemma QueenTableInRange()
    ensures TableInRange(QueenTable)
  {
  }

  const KingTable: seq<seq<int>> := [
    [-30,-40,-40,-50,-50,-40,-40,-30],
    [-30,-40,-40,-50,-50,-40,-40,-30],
    [-30,-40,-40,-50,-50,-40,-40,-30],
    [-30,-40,-40,-50,-50,-40,-40,-30],
    [-20,-30,-30,-40,-40,-30,-30,-20],
    [-10,-20,-20,-20,-20,-20,-20,-10],
    [ 20, 20,  0,  0,  0,  0, 20, 20],
    [ 20, 30, 10,  0,  0, 10, 30, 20]]

  lemma KingTableInRange()
    ensures TableInRange(KingTable)
  {
  }

  /** Positional bonus tables, from white's point of view (row 0 = rank 8). */
  function PieceSquareTable(t: PieceType): (table: seq<seq<int>>)
    ensures TableInRange(table)
    ensures |table| == 8
    ensures forall r | 0 <= r < 8 :: |table[r]| == 8
    ensures forall r, c | 0 <= r < 8 && 0 <= c < 8 :: -MaxBonus <= table[r][c] <= MaxBonus
  {
    var table := PieceSquareTableRaw(t);
    TableBounds(table);
    table
  }

  lemma TableBounds(t: seq<seq<int>>)
    requires TableInRange(t)
    ensures |t| == 8
    ensures forall r | 0 <= r < 8 :: |t[r]| == 8
    ensures forall r, c | 0 <= r < 8 && 0 <= c < 8 :: -MaxBonus <= t[r][c] <= MaxBonus
  {
    forall r, c | 0 <= r < 8 && 0 <= c < 8
      ensures -MaxBonus <= t[r][c] <= MaxBonus
    {
      assert RowInRange(t[r]);
    }
  }

  function PieceSquareTableRaw(t: PieceType): (table: seq<seq<int>>)
    ensures TableInRange(table)
  {
    match t
    case Pawn => PawnTableInRange(); PawnTable
    case Knight => KnightTableInRange(); KnightTable
    case Bishop => BishopTableInRange(); BishopTable
    case Rook => RookTableInRange(); RookTable
    case Queen => QueenTableInRange(); QueenTable
    case King => KingTableInRange(); KingTable
  }

  /** Contents of one square of the starting layout. */
  function InitialSquare(row: int, col: int): Option<Piece>
    requires InBounds(row, col)
  {
    if row == 0 then Some(Piece(BackRank[col], Black))
    else if row == 1 then Some(Piece(Pawn, Black))
    else if row == 6 then Some(Piece(Pawn, White))
    else if row == 7 then Some(Piece(BackRank[col], White))
    else None
  }

  /** The standard starting position. */
  function InitialBoard(): (b: Board)
    ensures forall c | 0 <= c < 8 :: b[0][c] == Some(Piece(BackRank[c], Black))
    ensures forall c | 0 <= c < 8 :: b[1][c] == Some(Piece(Pawn, Black))
    ensures forall r, c | 2 <= r < 6 && 0 <= c < 8 :: b[r][c] == None
    ensures forall c | 0 <= c < 8 :: b[6][c] == Some(Piece(Pawn, White))
    ensures forall c | 0 <= c < 8 :: b[7][c] == Some(Piece(BackRank[c], White))
  {
    seq(8, row requires 0 <= row < 8 => seq(8, col requires 0 <= col < 8 => InitialSquare(row, col)))
  }
}
