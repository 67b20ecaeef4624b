/**
 * Declarative descriptions of attacks and of the moves each piece may make,
 * and the lemmas showing that the scanning generator in `Moves` produces
 * exactly those.
 */
module MoveSpec {
  import opened Types
  import opened Boards
  import opened Moves

  function Abs(x: int): int
  {
    if x < 0 then -x else x
  }

  /** The knight's L-shaped displacement. */
  predicate KnightStep(dr: int, dc: int)
  {
    (Abs(dr) == 1 && Abs(dc) == 2) || (Abs(dr) == 2 && Abs(dc) == 1)
  }

  /** A displacement to one of the eight neighbouring squares. */
  predicate KingStep(dr: int, dc: int)
  {
    Abs(dr) <= 1 && Abs(dc) <= 1 && (dr != 0 || dc != 0)
  }

  // ---------------------------------------------------------------------
  // Rays
  // ---------------------------------------------------------------------

  /** The square k steps along (dr, dc) from (row, col) is on the board and empty. */
  predicate EmptyOnRay(b: Board, row: int, col: int, dr: int, dc: int, k: int)
  {
    var r := Along(row, dr, k);
    var c := Along(col, dc, k);
    InBounds(r, c) && b[r][c].None?
  }

  /** Every square at distance i .. k-1 along the ray is on the board and empty. */
  predicate RayClear(b: Board, row: int, col: int, dr: int, dc: int, i: int, k: int)
  {
    forall j | i <= j < k :: EmptyOnRay(b, row, col, dr, dc, j)
  }

  /** The square k steps along the ray holds a `kind` or a queen of `byColor`. */
  predicate RayHit(b: Board, row: int, col: int, dr: int, dc: int, k: int, kind: PieceType, byColor: Color)
  {
    var r := Along(row, dr, k);
    var c := Along(col, dc, k);
    InBounds(r, c) && b[r][c].Some? && b[r][c].value.color == byColor
    && (b[r][c].value.kind == kind || b[r][c].value.kind == Queen)
  }

  /**
   * The ray scan finds an attacker exactly when some square of the ray holds
   * a matching piece and every square before it is empty.
   */
  lemma {:induction false} RayAttackIff(b: Board, row: int, col: int, dr: int, dc: int, i: int,
                                        kind: PieceType, byColor: Color)
    requires 1 <= i
    decreases 8 - i
    ensures RayAttack(b, row, col, dr, dc, i, kind, byColor)
            <==> exists k | i <= k < 8 :: RayHit(b, row, col, dr, dc, k, kind, byColor)
                                          && RayClear(b, row, col, dr, dc, i, k)
  {
    if i >= 8 {
    } else {
      var r := Along(row, dr, i);
      var c := Along(col, dc, i);
      if !InBounds(r, c) {
        forall k | i <= k < 8
          ensures !(RayHit(b, row, col, dr, dc, k, kind, byColor) && RayClear(b, row, col, dr, dc, i, k))
        {
          if k > i {
            assert !EmptyOnRay(b, row, col, dr, dc, i);
          }
        }
      } else if b[r][c].None? {
        RayAttackIff(b, row, col, dr, dc, i + 1, kind, byColor);
        if RayAttack(b, row, col, dr, dc, i, kind, byColor) {
          var k :| i + 1 <= k < 8 && RayHit(b, row, col, dr, dc, k, kind, byColor)
                   && RayClear(b, row, col, dr, dc, i + 1, k);
          assert RayClear(b, row, col, dr, dc, i, k) by {
            assert EmptyOnRay(b, row, col, dr, dc, i);
          }
        }
        if exists k | i <= k < 8 :: RayHit(b, row, col, dr, dc, k, kind, byColor)
                                    && RayClear(b, row, col, dr, dc, i, k) {
          var k :| i <= k < 8 && RayHit(b, row, col, dr, dc, k, kind, byColor)
                   && RayClear(b, row, col, dr, dc, i, k);
          assert k != i;
          assert RayClear(b, row, col, dr, dc, i + 1, k);
        }
      } else {
        if RayAttack(b, row, col, dr, dc, i, kind, byColor) {
          assert RayHit(b, row, col, dr, dc, i, kind, byColor) && RayClear(b, row, col, dr, dc, i, i);
        }
        forall k | i < k < 8
          ensures !RayClear(b, row, col, dr, dc, i, k)
        {
          assert !EmptyOnRay(b, row, col, dr, dc, i);
        }
      }
    }
  }

  /**
   * The first occupied square of a ray decides: a line piece behind a blocker
   * never counts as attacking, whatever stands further along.
   */
  lemma FirstOccupiedDecides(b: Board, row: int, col: int, dr: int, dc: int, k: int,
                             kind: PieceType, byColor: Color)
    requires 1 <= k < 8
    requires RayClear(b, row, col, dr, dc, 1, k)
    requires InBounds(Along(row, dr, k), Along(col, dc, k))
    requires b[Along(row, dr, k)][Along(col, dc, k)].Some?
    ensures RayAttack(b, row, col, dr, dc, 1, kind, byColor) <==> RayHit(b, row, col, dr, dc, k, kind, byColor)
  {
    RayAttackIff(b, row, col, dr, dc, 1, kind, byColor);
    if RayAttack(b, row, col, dr, dc, 1, kind, byColor) {
      var k' :| 1 <= k' < 8 && RayHit(b, row, col, dr, dc, k', kind, byColor)
                && RayClear(b, row, col, dr, dc, 1, k');
      assert k' < k ==> EmptyOnRay(b, row, col, dr, dc, k');
      assert k < k' ==> EmptyOnRay(b, row, col, dr, dc, k);
    } else {
      assert RayClear(b, row, col, dr, dc, 1, k);
    }
  }

  /** A line attack is a ray attack along one of the listed directions. */
  lemma {:induction false} LineAttackIff(b: Board, row: int, col: int, dirs: seq<(int, int)>, j: nat,
                                         kind: PieceType, byColor: Color)
    requires j <= |dirs|
    decreases |dirs| - j
    ensures LineAttack(b, row, col, dirs, j, kind, byColor)
            <==> exists d | d in dirs[j..] :: RayAttack(b, row, col, d.0, d.1, 1, kind, byColor)
  {
    if j < |dirs| {
      LineAttackIff(b, row, col, dirs, j + 1, kind, byColor);
      assert dirs[j..] == [dirs[j]] + dirs[j + 1..];
    }
  }

  /** Offset attacks test exactly the squares reached by the listed offsets. */
  lemma {:induction false} OffsetAttackIff(b: Board, row: int, col: int, offsets: seq<(int, int)>, i: nat,
                                           kind: PieceType, byColor: Color)
    requires i <= |offsets|
    decreases |offsets| - i
    ensures OffsetAttack(b, row, col, offsets, i, kind, byColor)
            <==> exists o | o in offsets[i..] :: HasPiece(b, row + o.0, col + o.1, kind, byColor)
  {
    if i < |offsets| {
      OffsetAttackIff(b, row, col, offsets, i + 1, kind, byColor);
      assert offsets[i..] == [offsets[i]] + offsets[i + 1..];
    }
  }

  /** The knight's step when `knight`, the king's step otherwise. */
  predicate Step(knight: bool, dr: int, dc: int)
  {
    if knight then KnightStep(dr, dc) else KingStep(dr, dc)
  }

  function StepOffsets(knight: bool): seq<(int, int)>
  {
    if knight then KnightOffsets else KingOffsets
  }

  /** The offset lists hold exactly the knight's and the king's steps. */
  lemma StepOffsetsExact(knight: bool, dr: int, dc: int)
    ensures (dr, dc) in StepOffsets(knight) <==> Step(knight, dr, dc)
  {
  }

  /** Some square holds a `kind` of `byColor` one knight's (or king's) step from (row, col). */
  predicate PieceAtStep(b: Board, row: int, col: int, kind: PieceType, byColor: Color, knight: bool)
  {
    exists fr, fc | 0 <= fr < 8 && 0 <= fc < 8 && b[fr][fc] == Some(Piece(kind, byColor))
      :: Step(knight, fr - row, fc - col)
  }

  lemma OffsetAttackGeometry(b: Board, row: int, col: int, kind: PieceType, byColor: Color, knight: bool)
    ensures OffsetAttack(b, row, col, StepOffsets(knight), 0, kind, byColor)
            <==> PieceAtStep(b, row, col, kind, byColor, knight)
  {
    var offsets := StepOffsets(knight);
    OffsetAttackIff(b, row, col, offsets, 0, kind, byColor);
    assert offsets[0..] == offsets;
    if OffsetAttack(b, row, col, offsets, 0, kind, byColor) {
      var o :| o in offsets && HasPiece(b, row + o.0, col + o.1, kind, byColor);
      OffsetGivesStep(b, row, col, kind, byColor, knight, o);
    }
    if PieceAtStep(b, row, col, kind, byColor, knight) {
      var fr, fc :| 0 <= fr < 8 && 0 <= fc < 8 && b[fr][fc] == Some(Piece(kind, byColor))
                    && Step(knight, fr - row, fc - col);
      StepGivesOffset(b, row, col, kind, byColor, knight, fr, fc);
    }
  }

  lemma OffsetGivesStep(b: Board, row: int, col: int, kind: PieceType, byColor: Color, knight: bool, o: (int, int))
    requires o in StepOffsets(knight) && HasPiece(b, row + o.0, col + o.1, kind, byColor)
    ensures PieceAtStep(b, row, col, kind, byColor, knight)
  {
    StepOffsetsExact(knight, o.0, o.1);
    var fr, fc := row + o.0, col + o.1;
    assert 0 <= fr < 8 && 0 <= fc < 8 && b[fr][fc] == Some(Piece(kind, byColor));
    assert Step(knight, fr - row, fc - col);
  }

  lemma StepGivesOffset(b: Board, row: int, col: int, kind: PieceType, byColor: Color, knight: bool, fr: int, fc: int)
    requires 0 <= fr < 8 && 0 <= fc < 8 && b[fr][fc] == Some(Piece(kind, byColor))
    requires Step(knight, fr - row, fc - col)
    ensures exists o | o in StepOffsets(knight) :: HasPiece(b, row + o.0, col + o.1, kind, byColor)
  {
    StepOffsetsExact(knight, fr - row, fc - col);
    var o := (fr - row, fc - col);
    assert HasPiece(b, row + o.0, col + o.1, kind, byColor);
  }

  /** A ray along one of `dirs` with a matching piece and a clear path to it. */
  predicate SliderOnLine(b: Board, row: int, col: int, dirs: seq<(int, int)>, kind: PieceType, byColor: Color)
  {
    exists d, k | d in dirs && 1 <= k < 8
      :: RayHit(b, row, col, d.0, d.1, k, kind, byColor) && RayClear(b, row, col, d.0, d.1, 1, k)
  }

  lemma LineAttackGeometry(b: Board, row: int, col: int, dirs: seq<(int, int)>, kind: PieceType, byColor: Color)
    ensures LineAttack(b, row, col, dirs, 0, kind, byColor) <==> SliderOnLine(b, row, col, dirs, kind, byColor)
  {
    LineAttackIff(b, row, col, dirs, 0, kind, byColor);
    assert dirs[0..] == dirs;
    if LineAttack(b, row, col, dirs, 0, kind, byColor) {
      var d :| d in dirs && RayAttack(b, row, col, d.0, d.1, 1, kind, byColor);
      RayAttackIff(b, row, col, d.0, d.1, 1, kind, byColor);
    }
    if SliderOnLine(b, row, col, dirs, kind, byColor) {
      var d, k :| d in dirs && 1 <= k < 8
                  && RayHit(b, row, col, d.0, d.1, k, kind, byColor) && RayClear(b, row, col, d.0, d.1, 1, k);
      RayAttackIff(b, row, col, d.0, d.1, 1, kind, byColor);
    }
  }

  /** A pawn of `byColor` one row behind (row, col), on an adjacent file. */
  predicate PawnBehind(b: Board, row: int, col: int, byColor: Color)
  {
    exists fr, fc | 0 <= fr < 8 && 0 <= fc < 8 && b[fr][fc] == Some(Piece(Pawn, byColor))
      :: fr == row + (if byColor == White then 1 else -1) && Abs(fc - col) == 1
  }

  lemma PawnAttackIff(b: Board, row: int, col: int, byColor: Color)
    ensures PawnAttack(b, row, col, byColor) <==> PawnBehind(b, row, col, byColor)
  {
    var pr := row - Forward(byColor);
    if PawnAttack(b, row, col, byColor) {
      if HasPiece(b, pr, col - 1, Pawn, byColor) {
        assert 0 <= pr < 8 && 0 <= col - 1 < 8 && b[pr][col - 1] == Some(Piece(Pawn, byColor));
      } else {
        assert 0 <= pr < 8 && 0 <= col + 1 < 8 && b[pr][col + 1] == Some(Piece(Pawn, byColor));
      }
    }
    if PawnBehind(b, row, col, byColor) {
      var fr, fc :| 0 <= fr < 8 && 0 <= fc < 8 && b[fr][fc] == Some(Piece(Pawn, byColor))
                    && fr == row + (if byColor == White then 1 else -1) && Abs(fc - col) == 1;
      assert HasPiece(b, fr, fc, Pawn, byColor);
    }
  }

  /**
   * Reference description of an attacked square: a pawn of `byColor` one row
   * behind it (row + 1 for white, row - 1 for black) on an adjacent file, a
   * knight a knight's step away, a king next to it, or a bishop/rook (or
   * queen) on a diagonal/straight line with nothing in between.
   */
  predicate Attacked(b: Board, row: int, col: int, byColor: Color)
  {
    || PawnBehind(b, row, col, byColor)
    || PieceAtStep(b, row, col, Knight, byColor, true)
    || PieceAtStep(b, row, col, King, byColor, false)
    || SliderOnLine(b, row, col, Diagonals, Bishop, byColor)
    || SliderOnLine(b, row, col, Straights, Rook, byColor)
  }

  lemma IsSquareAttackedIff(b: Board, row: int, col: int, byColor: Color)
    ensures IsSquareAttacked(b, row, col, byColor) <==> Attacked(b, row, col, byColor)
  {
    PawnAttackIff(b, row, col, byColor);
    OffsetAttackGeometry(b, row, col, Knight, byColor, true);
    OffsetAttackGeometry(b, row, col, King, byColor, false);
    LineAttackGeometry(b, row, col, Diagonals, Bishop, byColor);
    LineAttackGeometry(b, row, col, Straights, Rook, byColor);
  }
}
