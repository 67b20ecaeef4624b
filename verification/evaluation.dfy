/**
 * The static evaluation used at the leaves of the search: material plus the
 * piece-square bonus, counted positively for white and negatively for black.
 */
module Evaluation {
  import opened Types
  import opened Boards
  import opened Constants

  /** The positional bonus of a piece; tables are drawn for white, black reads the mirrored row. */
  function PieceSquareValue(kind: PieceType, color: Color, row: int, col: int): (v: int)
    requires InBounds(row, col)
    ensures -MaxBonus <= v <= MaxBonus
  {
    var r := if color == White then row else 7 - row;
    PieceSquareTable(kind)[r][col]
  }

  /** What one square contributes: nothing if empty, the piece's worth signed by its colour otherwise. */
  function SquareScore(cell: Option<Piece>, row: int, col: int): int
    requires InBounds(row, col)
  {
    match cell
    case None => 0
    case Some(p) =>
      var value := PieceValue(p.kind) + PieceSquareValue(p.kind, p.color, row, col);
      if p.color == White then value else -value
  }

  /** The contributions of the first `c` squares of a row. */
  function RowScore(b: Board, row: int, c: int): int
    requires 0 <= row < 8 && 0 <= c <= 8
  {
    if c == 0 then 0 else RowScore(b, row, c - 1) + SquareScore(b[row][c - 1], row, c - 1)
  }

  /** The contributions of the first `r` rows. */
  function RowsScore(b: Board, r: int): int
    requires 0 <= r <= 8
  {
    if r == 0 then 0 else RowsScore(b, r - 1) + RowScore(b, r - 1, 8)
  }

  /** The evaluation of a board: the sum of the contributions of all 64 squares. */
  function BoardScore(b: Board): int
  {
    RowsScore(b, 8)
  }

  /** The evaluation, scanning rows then columns as the engine does. */
  method Evaluate(s: GameState) returns (score: int)
    ensures score == BoardScore(s.board)
  {
    var b := s.board;
    score := 0;
    var r := 0;
    while r < 8
      invariant 0 <= r <= 8
      invariant score == RowsScore(b, r)
    {
      var c := 0;
      while c < 8
        invariant 0 <= c <= 8
        invariant score == RowsScore(b, r) + RowScore(b, r, c)
      {
        var piece := b[r][c];
        if piece.Some? {
          var value := PieceValue(piece.value.kind) + PieceSquareValue(piece.value.kind, piece.value.color, r, c);
          score := score + if piece.value.color == White then value else -value;
        }
        c := c + 1;
      }
      r := r + 1;
    }
  }

  // ---------------------------------------------------------------------
  // Bound
  // ---------------------------------------------------------------------

  /** The most one square can contribute. */
  const MaxSquare: int := KingValue + MaxBonus

  /** The largest magnitude an evaluation can reach. */
  const MaxScore: int := 64 * MaxSquare

  lemma SquareScoreBound(cell: Option<Piece>, row: int, col: int)
    requires InBounds(row, col)
    ensures -MaxSquare <= SquareScore(cell, row, col) <= MaxSquare
  {
  }

  lemma {:induction false} RowScoreBound(b: Board, row: int, c: int)
    requires 0 <= row < 8 && 0 <= c <= 8
    ensures -c * MaxSquare <= RowScore(b, row, c) <= c * MaxSquare
  {
    if c > 0 {
      RowScoreBound(b, row, c - 1);
      SquareScoreBound(b[row][c - 1], row, c - 1);
      assert (c - 1) * MaxSquare + MaxSquare == c * MaxSquare;
    }
  }

  lemma {:induction false} RowsScoreBound(b: Board, r: int)
    requires 0 <= r <= 8
    ensures -r * 8 * MaxSquare <= RowsScore(b, r) <= r * 8 * MaxSquare
  {
    if r > 0 {
      RowsScoreBound(b, r - 1);
      RowScoreBound(b, r - 1, 8);
    }
  }

  /** Every evaluation lies within MaxScore of zero. */
  lemma ScoreBound(b: Board)
    ensures -MaxScore <= BoardScore(b) <= MaxScore
  {
    RowsScoreBound(b, 8);
  }

  // ---------------------------------------------------------------------
  // Colour symmetry
  // ---------------------------------------------------------------------

  /** The same square with the piece's colour swapped. */
  function SwapColor(cell: Option<Piece>): Option<Piece>
  {
    match cell
    case None => None
    case Some(p) => Some(Piece(p.kind, Opponent(p.color)))
  }

  /** The board seen from the other side: rows reversed and colours swapped. */
  function Mirror(b: Board): (m: Board)
    ensures forall r, c | InBounds(r, c) :: m[r][c] == SwapColor(b[7 - r][c])
  {
    var g := seq(8, r requires 0 <= r < 8 => MirrorRow(b, r));
    assert forall r | 0 <= r < 8 :: |g[r]| == 8;
    g
  }

  /** Row `r` of the mirrored board. */
  function MirrorRow(b: Board, r: int): (row: seq<Option<Piece>>)
    requires 0 <= r < 8
    ensures |row| == 8
  {
    seq(8, c requires 0 <= c < 8 => SwapColor(b[7 - r][c]))
  }

  /** Mirroring a piece negates its contribution. */
  lemma SquareScoreMirror(cell: Option<Piece>, row: int, col: int)
    requires InBounds(row, col)
    ensures SquareScore(SwapColor(cell), 7 - row, col) == -SquareScore(cell, row, col)
  {
  }

  lemma {:induction false} RowScoreMirror(b: Board, row: int, c: int)
    requires 0 <= row < 8 && 0 <= c <= 8
    ensures RowScore(Mirror(b), 7 - row, c) == -RowScore(b, row, c)
  {
    if c > 0 {
      RowScoreMirror(b, row, c - 1);
      SquareScoreMirror(b[row][c - 1], row, c - 1);
    }
  }

  /** The evaluation as the sum of its eight row totals. */
  lemma RowsUnrolled(b: Board)
    ensures BoardScore(b) == RowScore(b, 0, 8) + RowScore(b, 1, 8) + RowScore(b, 2, 8) + RowScore(b, 3, 8)
                           + RowScore(b, 4, 8) + RowScore(b, 5, 8) + RowScore(b, 6, 8) + RowScore(b, 7, 8)
  {
    assert RowsScore(b, 1) == RowScore(b, 0, 8);
    assert RowsScore(b, 2) == RowsScore(b, 1) + RowScore(b, 1, 8);
    assert RowsScore(b, 3) == RowsScore(b, 2) + RowScore(b, 2, 8);
    assert RowsScore(b, 4) == RowsScore(b, 3) + RowScore(b, 3, 8);
    assert RowsScore(b, 5) == RowsScore(b, 4) + RowScore(b, 4, 8);
    assert RowsScore(b, 6) == RowsScore(b, 5) + RowScore(b, 5, 8);
    assert RowsScore(b, 7) == RowsScore(b, 6) + RowScore(b, 6, 8);
  }

  /** Seen from the other side, every position is worth the opposite. */
  lemma MirrorNegates(b: Board)
    ensures BoardScore(Mirror(b)) == -BoardScore(b)
  {
    RowsUnrolled(b);
    RowsUnrolled(Mirror(b));
    RowScoreMirror(b, 0, 8);
    RowScoreMirror(b, 1, 8);
    RowScoreMirror(b, 2, 8);
    RowScoreMirror(b, 3, 8);
    RowScoreMirror(b, 4, 8);
    RowScoreMirror(b, 5, 8);
    RowScoreMirror(b, 6, 8);
    RowScoreMirror(b, 7, 8);
  }

  /** The starting position is its own mirror image. */
  lemma InitialBoardSymmetric()
    ensures Mirror(InitialBoard()) == InitialBoard()
  {
    var b := InitialBoard();
    var m := Mirror(b);
    forall r | 0 <= r < 8
      ensures m[r] == b[r]
    {
      forall c | 0 <= c < 8
        ensures m[r][c] == b[r][c]
      {
        assert m[r][c] == SwapColor(b[7 - r][c]);
      }
    }
  }

  /** The starting position evaluates to zero. */
  lemma InitialScoreZero()
    ensures BoardScore(InitialBoard()) == 0
  {
    InitialBoardSymmetric();
    MirrorNegates(InitialBoard());
  }
}
