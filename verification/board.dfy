/**
 * Board primitives: bounds test, bounds-safe lookup, copying, single-square
 * update and the row-major king search.
 */
module Boards {
  import opened Types

  /** True exactly for the 64 squares of the board. */
  predicate InBounds(row: int, col: int)
  {
    0 <= row < 8 && 0 <= col < 8
  }

  /** An en-passant target, when present, names a square of the board. */
  predicate ValidEp(ep: Option<Pos>)
  {
    ep.Some? ==> InBounds(ep.value.row, ep.value.col)
  }

  /** Row-major order: (r1, c1) is scanned before (r2, c2). */
  predicate Before(r1: int, c1: int, r2: int, c2: int)
  {
    r1 < r2 || (r1 == r2 && c1 < c2)
  }

  /** Bounds-safe lookup: any coordinate outside the board reads as an empty square. */
  function GetPiece(b: Board, row: int, col: int): (r: Option<Piece>)
    ensures !InBounds(row, col) ==> r == None
    ensures InBounds(row, col) ==> r == b[row][col]
    ensures r.Some? ==> InBounds(row, col)
  {
    if !InBounds(row, col) then None else b[row][col]
  }

  /** A square-by-square copy of the board. */
  function CloneBoard(b: Board): (r: Board)
    ensures forall row, col | InBounds(row, col) :: r[row][col] == b[row][col]
    ensures r == b
  {
    var g := seq(8, row requires 0 <= row < 8 => seq(8, col requires 0 <= col < 8 => b[row][col]));
    assert forall row | 0 <= row < 8 :: g[row] == b[row];
    g
  }

  /** The board with one square overwritten. */
  function Put(b: Board, row: int, col: int, x: Option<Piece>): (r: Board)
    requires InBounds(row, col)
    ensures r[row][col] == x
    ensures forall i, j | InBounds(i, j) && (i != row || j != col) :: r[i][j] == b[i][j]
  {
    b[row := b[row][col := x]]
  }

  predicate IsKingOf(cell: Option<Piece>, color: Color)
  {
    cell == Some(Piece(King, color))
  }

  /** Row-major scan for a king of `color`, starting at square (row, col). */
  function FindKingFrom(b: Board, color: Color, row: int, col: int): (r: Option<Pos>)
    requires 0 <= row <= 8 && 0 <= col <= 8
    decreases 8 - row, 8 - col
    ensures r.Some? ==> InBounds(r.value.row, r.value.col)
                        && IsKingOf(b[r.value.row][r.value.col], color)
                        && !Before(r.value.row, r.value.col, row, col)
                        && (forall i, j | InBounds(i, j) && !Before(i, j, row, col)
                                          && Before(i, j, r.value.row, r.value.col)
                              :: !IsKingOf(b[i][j], color))
    ensures r.None? <==> (forall i, j | InBounds(i, j) && !Before(i, j, row, col)
                            :: !IsKingOf(b[i][j], color))
  {
    if row == 8 then None
    else if col == 8 then FindKingFrom(b, color, row + 1, 0)
    else if IsKingOf(b[row][col], color) then Some(Pos(row, col))
    else FindKingFrom(b, color, row, col + 1)
  }

  /**
   * The first square in row-major order holding a king of `color`, or None
   * when the board has no such king.
   */
  function FindKing(b: Board, color: Color): (r: Option<Pos>)
    ensures r.Some? ==> InBounds(r.value.row, r.value.col)
                        && IsKingOf(b[r.value.row][r.value.col], color)
                        && (forall i, j | InBounds(i, j) && Before(i, j, r.value.row, r.value.col)
                              :: !IsKingOf(b[i][j], color))
    ensures r.None? <==> (forall i, j | InBounds(i, j) :: !IsKingOf(b[i][j], color))
  {
    FindKingFrom(b, color, 0, 0)
  }
}
