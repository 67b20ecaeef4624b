/**
 * The computer opponent: a depth-three alpha-beta search over the legal
 * moves, captures tried first, with the static evaluation at the leaves.
 * The search always plays the minimising side (black) at the root.
 */
module Ai {
  import opened Types
  import opened Boards
  import opened Moves
  import opened Game
  import opened Legality
  import opened Evaluation
  import opened AlphaBeta

  /** The search depth in plies. */
  const AiDepth: nat := 3

  /** The base score of a mate; the remaining depth is added so that quicker mates score higher. */
  const MateScore: int := 100000

  // ---------------------------------------------------------------------
  // Move ordering
  // ---------------------------------------------------------------------

  /** A move whose destination holds a piece (an en-passant capture lands on an empty square). */
  predicate TakesPiece(b: Board, m: Move)
  {
    InBounds(m.toRow, m.toCol) && b[m.toRow][m.toCol].Some?
  }

  /** The moves of ms that land on a piece, in their original order. */
  function Captures(b: Board, ms: seq<Move>): (r: seq<Move>)
    ensures forall i | 0 <= i < |r| :: TakesPiece(b, r[i])
  {
    if ms == [] then []
    else (if TakesPiece(b, ms[0]) then [ms[0]] else []) + Captures(b, ms[1..])
  }

  /** The moves of ms that land on an empty square, in their original order. */
  function Quiet(b: Board, ms: seq<Move>): (r: seq<Move>)
    ensures forall i | 0 <= i < |r| :: !TakesPiece(b, r[i])
  {
    if ms == [] then []
    else (if TakesPiece(b, ms[0]) then [] else [ms[0]]) + Quiet(b, ms[1..])
  }

  /**
   * The search order: a stable sort on "lands on a piece", descending, which
   * puts the captures first and otherwise keeps the generator's order.
   */
  function OrderCaptures(b: Board, ms: seq<Move>): (r: seq<Move>)
    ensures multiset(r) == multiset(ms)
    ensures |r| == |ms| && forall j | 0 <= j < |r| :: r[j] in ms
  {
    var r := Captures(b, ms) + Quiet(b, ms);
    SplitPermutes(b, ms);
    assert forall j | 0 <= j < |r| :: r[j] in multiset(ms);
    assert |r| == |multiset(r)|;
    r
  }

  lemma {:induction false} SplitPermutes(b: Board, ms: seq<Move>)
    ensures multiset(Captures(b, ms) + Quiet(b, ms)) == multiset(ms)
  {
    if ms != [] {
      SplitPermutes(b, ms[1..]);
      assert ms == [ms[0]] + ms[1..];
    }
  }

  lemma {:induction false} CapturesAppend(b: Board, xs: seq<Move>, ys: seq<Move>)
    ensures Captures(b, xs + ys) == Captures(b, xs) + Captures(b, ys)
    ensures Quiet(b, xs + ys) == Quiet(b, xs) + Quiet(b, ys)
  {
    if xs != [] {
      CapturesAppend(b, xs[1..], ys);
      assert (xs + ys)[0] == xs[0];
      assert (xs + ys)[1..] == xs[1..] + ys;
    } else {
      assert xs + ys == ys;
    }
  }

  lemma {:induction false} CapturesOfFiltered(b: Board, ms: seq<Move>)
    ensures Captures(b, Captures(b, ms)) == Captures(b, ms) && Quiet(b, Captures(b, ms)) == []
    ensures Captures(b, Quiet(b, ms)) == [] && Quiet(b, Quiet(b, ms)) == Quiet(b, ms)
  {
    if ms != [] {
      CapturesOfFiltered(b, ms[1..]);
      var c, q := Captures(b, ms[1..]), Quiet(b, ms[1..]);
      if TakesPiece(b, ms[0]) {
        assert Captures(b, ms) == [ms[0]] + c;
        assert ([ms[0]] + c)[1..] == c;
        assert Quiet(b, ms) == q;
      } else {
        assert Quiet(b, ms) == [ms[0]] + q;
        assert ([ms[0]] + q)[1..] == q;
        assert Captures(b, ms) == c;
      }
    }
  }

  /**
   * The search order is a stable sort of the generated moves: a permutation
   * in which no quiet move precedes a capture, and in which the captures,
   * and the quiet moves, keep their relative order.
   */
  lemma OrderIsStableSort(b: Board, ms: seq<Move>)
    ensures multiset(OrderCaptures(b, ms)) == multiset(ms)
    ensures forall i, j | 0 <= i < j < |OrderCaptures(b, ms)| ::
              TakesPiece(b, OrderCaptures(b, ms)[j]) ==> TakesPiece(b, OrderCaptures(b, ms)[i])
    ensures Captures(b, OrderCaptures(b, ms)) == Captures(b, ms)
    ensures Quiet(b, OrderCaptures(b, ms)) == Quiet(b, ms)
  {
    var c, q := Captures(b, ms), Quiet(b, ms);
    var r := OrderCaptures(b, ms);
    CapturesAppend(b, c, q);
    CapturesOfFiltered(b, ms);
    assert c + [] == c && [] + q == q;
    PartitionSorted(b, c, q);
  }

  /** Captures followed by quiet moves: no quiet move comes before a capture. */
  lemma PartitionSorted(b: Board, c: seq<Move>, q: seq<Move>)
    requires forall k | 0 <= k < |c| :: TakesPiece(b, c[k])
    requires forall k | 0 <= k < |q| :: !TakesPiece(b, q[k])
    ensures forall i, j | 0 <= i < j < |c + q| :: TakesPiece(b, (c + q)[j]) ==> TakesPiece(b, (c + q)[i])
  {
    var r := c + q;
    assert forall k | 0 <= k < |c| :: r[k] == c[k];
    assert forall k | |c| <= k < |r| :: r[k] == q[k - |c|];
  }

  // ---------------------------------------------------------------------
  // The search
  // ---------------------------------------------------------------------

  /** The statuses that end the game. */
  predicate Over(st: Status)
  {
    st == Checkmate || st == Stalemate || st == Draw
  }

  /** The maximiser plays white and the minimiser black, whoever is to move. */
  function SideOf(maximizing: bool): Color
  {
    if maximizing then White else Black
  }

  /** The search promotes to a queen and passes no choice for any other move. */
  function PromotionChoice(m: Move): Option<PieceType>
  {
    if m.special == Promotion then Some(Queen) else None
  }

  /** The record after the search plays a legal move of `color`. */
  function Next(s: GameState, color: Color, m: Move): (r: GameState)
    requires ValidEp(s.ep) && m in AllLegalMoves(s, color)
    ensures ValidEp(r.ep)
  {
    LegalCanMake(s, color, m, PromotionChoice(m));
    MakeMove(s, m.(promotion := PromotionChoice(m)))
  }

  /** The score of a position where the search stops. */
  function LeafScore(s: GameState, depth: nat, maximizing: bool): int
  {
    if s.status == Checkmate then (if maximizing then -MateScore - depth else MateScore + depth)
    else if s.status == Stalemate || s.status == Draw then 0
    else BoardScore(s.board)
  }

  /** The moves searched at a node, in search order. */
  function SearchMoves(s: GameState, maximizing: bool): (r: seq<Move>)
    requires ValidEp(s.ep)
    ensures forall j | 0 <= j < |r| :: r[j] in AllLegalMoves(s, SideOf(maximizing))
    ensures |r| == 0 <==> |AllLegalMoves(s, SideOf(maximizing))| == 0
  {
    OrderCaptures(s.board, AllLegalMoves(s, SideOf(maximizing)))
  }

  /** Mate scores stay strictly inside the sentinel as long as the depth does not exceed this. */
  const MaxDepth: nat := Inf - MateScore - 1

  /** A search depth small enough for every score to stay inside the sentinel. */
  type Depth = d: nat | d <= MaxDepth

  /** Every score the search can meet at a leaf lies strictly inside (-Inf, Inf). */
  lemma LeafScoreWithin(s: GameState, depth: nat, maximizing: bool)
    requires depth <= MaxDepth
    ensures -Inf < LeafScore(s, depth, maximizing) < Inf
  {
    ScoreBound(s.board);
  }

  // ---------------------------------------------------------------------
  // The game tree the search explores
  // ---------------------------------------------------------------------

  /** A position where the search stops, with the depth left and the side it was searched for. */
  datatype Stop = Stop(s: GameState, depth: Depth, maximizing: bool)

  /** The score the search gives a position where it stops. */
  function StopScore(p: Stop): (v: Score)
    ensures v == LeafScore(p.s, p.depth, p.maximizing)
  {
    LeafScoreWithin(p.s, p.depth, p.maximizing);
    LeafScore(p.s, p.depth, p.maximizing)
  }

  /**
   * The positions the search visits: a leaf where the depth runs out or the
   * game is over, otherwise one child per searched move, in search order,
   * with the other side to play.
   */
  function GameTree(s: GameState, depth: Depth, maximizing: bool): Tree<Stop>
    requires ValidEp(s.ep)
    decreases depth
  {
    if depth == 0 || Over(s.status) then Leaf(Stop(s, depth, maximizing))
    else
      var moves := SearchMoves(s, maximizing);
      var side := SideOf(maximizing);
      var d: Depth := depth - 1;
      Node(seq(|moves|, j requires 0 <= j < |moves| => GameTree(Next(s, side, moves[j]), d, !maximizing)))
  }

  /** The tree has children exactly where the search goes on, one per searched move. */
  lemma KidsOfGameTree(s: GameState, depth: Depth, maximizing: bool)
    requires ValidEp(s.ep)
    ensures GameTree(s, depth, maximizing).Node? <==> depth >= 1 && !Over(s.status)
    ensures GameTree(s, depth, maximizing).Node? ==>
              |GameTree(s, depth, maximizing).kids| == |SearchMoves(s, maximizing)|
  {
  }

  /** The child of a searched node for the move at index j. */
  lemma KidOfGameTree(s: GameState, depth: Depth, maximizing: bool, j: nat)
    requires ValidEp(s.ep) && depth >= 1 && !Over(s.status) && j < |SearchMoves(s, maximizing)|
    ensures GameTree(s, depth, maximizing).Node? && j < |GameTree(s, depth, maximizing).kids|
    ensures GameTree(s, depth, maximizing).kids[j]
            == GameTree(Next(s, SideOf(maximizing), SearchMoves(s, maximizing)[j]), depth - 1, !maximizing)
  {
  }

  // ---------------------------------------------------------------------
  // The engine's search
  // ---------------------------------------------------------------------

  /** The score of a search and the move it chose (none at a leaf). */
  datatype SearchResult = SearchResult(score: int, move: Option<Move>)

  /**
   * The engine's search from s with `depth` plies left and the window
   * (alpha, beta): alpha-beta, with the engine's update rules, over the tree
   * of positions it visits; the chosen child is reported as its move.
   */
  function Minimax(s: GameState, depth: Depth, alpha: int, beta: int, maximizing: bool): (r: SearchResult)
    requires ValidEp(s.ep)
    ensures r.move.Some? ==> depth >= 1 && !Over(s.status) && r.move.value in AllLegalMoves(s, SideOf(maximizing))
  {
    var t := GameTree(s, depth, maximizing);
    var o := Search(t, StopScore, alpha, beta, maximizing);
    KidsOfGameTree(s, depth, maximizing);
    if o.choice.None? then SearchResult(o.score, None)
    else SearchResult(o.score, Some(SearchMoves(s, maximizing)[o.choice.value]))
  }

  /** The move the computer plays: the minimiser's choice of a full-window search. */
  function GetBestMove(s: GameState): Option<Move>
    requires ValidEp(s.ep)
  {
    Minimax(s, AiDepth, -Inf, Inf, false).move
  }

  // ---------------------------------------------------------------------
  // What the search computes
  // ---------------------------------------------------------------------

  /** The minimax value of the tree searched from s, as if nothing were pruned. */
  function TreeValue(s: GameState, depth: Depth, maximizing: bool): int
    requires ValidEp(s.ep)
  {
    Value(GameTree(s, depth, maximizing), StopScore, maximizing)
  }

  /** The computer's score is the minimax value of the depth-three tree. */
  lemma BestScoreIsMinimax(s: GameState)
    requires ValidEp(s.ep)
    ensures Minimax(s, AiDepth, -Inf, Inf, false).score == TreeValue(s, AiDepth, false)
  {
    FullWindowIsMinimax(GameTree(s, AiDepth, false), StopScore, false);
  }

  /** The minimax value, for white to move next, of the position after black plays m. */
  function ReplyValue(s: GameState, depth: Depth, m: Move): int
    requires ValidEp(s.ep) && depth >= 1 && m in AllLegalMoves(s, Black)
  {
    TreeValue(Next(s, Black, m), depth - 1, true)
  }

  /**
   * The computer answers with a move exactly when the game is not over and
   * black has a legal move; the move is one of black's legal moves, and the
   * position it leads to has the minimax value of the whole search.
   */
  lemma BestMoveIsOptimal(s: GameState)
    requires ValidEp(s.ep)
    ensures GetBestMove(s).Some? <==> !Over(s.status) && |AllLegalMoves(s, Black)| > 0
    ensures GetBestMove(s).Some? ==>
              && GetBestMove(s).value in AllLegalMoves(s, Black)
              && ReplyValue(s, AiDepth, GetBestMove(s).value) == TreeValue(s, AiDepth, false)
  {
    BestMoveExists(s);
    if GetBestMove(s).Some? {
      BestMoveValue(s);
    }
  }

  /** A full-window search at the root chooses a move exactly when the root has children. */
  lemma BestMoveExists(s: GameState)
    requires ValidEp(s.ep)
    ensures GetBestMove(s).Some? <==> !Over(s.status) && |SearchMoves(s, false)| > 0
  {
    var t := GameTree(s, AiDepth, false);
    KidsOfGameTree(s, AiDepth, false);
    if !Over(s.status) && |SearchMoves(s, false)| > 0 {
      MinimizerChoiceIsOptimal(t, StopScore);
    } else if !Over(s.status) {
      assert t.kids == [];
    }
  }

  /** The child the root search chooses has the root's minimax value. */
  lemma BestMoveValue(s: GameState)
    requires ValidEp(s.ep) && !Over(s.status) && |SearchMoves(s, false)| > 0
    ensures GetBestMove(s).Some?
    ensures ReplyValue(s, AiDepth, GetBestMove(s).value) == TreeValue(s, AiDepth, false)
  {
    RootChoice(s);
    var k := Search(GameTree(s, AiDepth, false), StopScore, -Inf, Inf, false).choice.value;
    KidOfGameTree(s, AiDepth, false, k);
  }

  /** At the root, the search chooses a child whose minimax value is the root's. */
  lemma RootChoice(s: GameState)
    requires ValidEp(s.ep) && !Over(s.status) && |SearchMoves(s, false)| > 0
    ensures var t := GameTree(s, AiDepth, false);
            var o := Search(t, StopScore, -Inf, Inf, false);
            && t.Node? && |t.kids| == |SearchMoves(s, false)|
            && o.choice.Some? && o.choice.value < |t.kids|
            && Value(t.kids[o.choice.value], StopScore, true) == TreeValue(s, AiDepth, false)
  {
    KidsOfGameTree(s, AiDepth, false);
    MinimizerChoiceIsOptimal(GameTree(s, AiDepth, false), StopScore);
  }
}
