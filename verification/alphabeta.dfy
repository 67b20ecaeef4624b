/**
 * Alpha-beta search over an abstract game tree, with the update rules of
 * the engine's search: a child replaces the best score only when strictly
 * better, the window bound moves to the best score so far, and the
 * remaining children are skipped once beta <= alpha. Infinity is the
 * sentinel `Inf`; every score the engine produces lies strictly inside it.
 */
module AlphaBeta {
  import opened Types

  /** The stand-in for JavaScript's Infinity in the search window. */
  const Inf: int := 1_000_000_000

  /** The scores a position can be given: every one lies within the sentinel. */
  type Score = v: int | -Inf <= v <= Inf

  /**
   * A searched position: one where the search stops, to be scored by the
   * evaluation, or the positions after each move in search order.
   */
  datatype Tree<P> = Leaf(pos: P) | Node(kids: seq<Tree<P>>)

  function Max(a: int, b: int): int
  {
    if a >= b then a else b
  }

  function Min(a: int, b: int): int
  {
    if a <= b then a else b
  }

  // ---------------------------------------------------------------------
  // Reference: plain minimax
  // ---------------------------------------------------------------------

  /** The minimax value; a node without children is worth -Inf to the maximiser and Inf to the minimiser. */
  function Value<P>(t: Tree<P>, eval: P -> Score, maximizing: bool): int
    decreases t, 1
  {
    match t
    case Leaf(p) => eval(p)
    case Node(_) => if maximizing then MaxValue(t, eval, 0) else MinValue(t, eval, 0)
  }

  /** The largest value of the children from index i on, at least -Inf. */
  function MaxValue<P>(t: Tree<P>, eval: P -> Score, i: nat): (v: int)
    requires t.Node? && i <= |t.kids|
    decreases t, 0, |t.kids| - i
    ensures v >= -Inf
  {
    if i == |t.kids| then -Inf else Max(Value(t.kids[i], eval, false), MaxValue(t, eval, i + 1))
  }

  /** The smallest value of the children from index i on, at most Inf. */
  function MinValue<P>(t: Tree<P>, eval: P -> Score, i: nat): (v: int)
    requires t.Node? && i <= |t.kids|
    decreases t, 0, |t.kids| - i
    ensures v <= Inf
  {
    if i == |t.kids| then Inf else Min(Value(t.kids[i], eval, true), MinValue(t, eval, i + 1))
  }

  // ---------------------------------------------------------------------
  // Alpha-beta with the engine's update rules
  // ---------------------------------------------------------------------

  /** What a search returns: its score and the index of the child it chose, if any. */
  datatype Outcome = Outcome(score: int, choice: Option<nat>)

  /**
   * Alpha-beta over t in the window (alpha, beta). At a node the first child
   * is the choice until a child scores strictly better; a leaf has no choice.
   */
  function Search<P>(t: Tree<P>, eval: P -> Score, alpha: int, beta: int, maximizing: bool): (o: Outcome)
    decreases t, 1
    ensures o.choice.Some? ==> t.Node? && o.choice.value < |t.kids|
  {
    match t
    case Leaf(p) => Outcome(eval(p), None)
    case Node(kids) =>
      var first := if kids == [] then None else Some(0);
      if maximizing then MaxLoop(t, eval, 0, alpha, beta, -Inf, first) else MinLoop(t, eval, 0, alpha, beta, Inf, first)
  }

  /** The maximiser's loop from child i, with the current alpha, the best score so far and its child. */
  function MaxLoop<P>(t: Tree<P>, eval: P -> Score, i: nat, alpha: int, beta: int, best: int, choice: Option<nat>): (o: Outcome)
    requires t.Node? && i <= |t.kids| && (choice.Some? ==> choice.value < |t.kids|)
    decreases t, 0, |t.kids| - i
    ensures o.choice.Some? ==> o.choice.value < |t.kids|
  {
    if i == |t.kids| then Outcome(best, choice)
    else
      var r := Search(t.kids[i], eval, alpha, beta, false).score;
      var better := r > best;
      var best' := if better then r else best;
      var choice' := if better then Some(i) else choice;
      var alpha' := Max(alpha, best');
      if beta <= alpha' then Outcome(best', choice') else MaxLoop(t, eval, i + 1, alpha', beta, best', choice')
  }

  /** The minimiser's loop from child i, with the current beta, the best score so far and its child. */
  function MinLoop<P>(t: Tree<P>, eval: P -> Score, i: nat, alpha: int, beta: int, best: int, choice: Option<nat>): (o: Outcome)
    requires t.Node? && i <= |t.kids| && (choice.Some? ==> choice.value < |t.kids|)
    decreases t, 0, |t.kids| - i
    ensures o.choice.Some? ==> o.choice.value < |t.kids|
  {
    if i == |t.kids| then Outcome(best, choice)
    else
      var r := Search(t.kids[i], eval, alpha, beta, true).score;
      var better := r < best;
      var best' := if better then r else best;
      var choice' := if better then Some(i) else choice;
      var beta' := Min(beta, best');
      if beta' <= alpha then Outcome(best', choice') else MinLoop(t, eval, i + 1, alpha, beta', best', choice')
  }

  // ---------------------------------------------------------------------
  // Correctness
  // ---------------------------------------------------------------------

  /**
   * The fail-soft guarantee: a result inside the window is the exact value,
   * a result at or below alpha is an upper bound of it and a result at or
   * above beta a lower bound.
   */
  predicate FailSoft(v: int, exact: int, alpha: int, beta: int)
  {
    && (v <= alpha ==> exact <= v)
    && (v >= beta ==> exact >= v)
    && (alpha < v < beta ==> exact == v)
  }

  /** Alpha-beta is fail-soft with respect to minimax for every window inside (-Inf, Inf). */
  lemma {:induction false} SearchFailSoft<P>(t: Tree<P>, eval: P -> Score, alpha: int, beta: int, maximizing: bool)
    requires -Inf <= alpha < beta <= Inf
    ensures FailSoft(Search(t, eval, alpha, beta, maximizing).score, Value(t, eval, maximizing), alpha, beta)
    decreases t, 1
  {
    match t
    case Leaf(_) =>
    case Node(_) =>
      var first := if t.kids == [] then None else Some(0);
      if maximizing {
        MaxLoopFailSoft(t, eval, 0, alpha, alpha, beta, -Inf, first, -Inf);
      } else {
        MinLoopFailSoft(t, eval, 0, alpha, beta, beta, Inf, first, Inf);
      }
  }

  /**
   * The maximiser's loop from child i. `seen` is the largest value of the
   * children before i (at least -Inf); the best score so far bounds it from
   * above, and equals it once it rose above the original alpha.
   */
  lemma {:induction false} MaxLoopFailSoft<P>(t: Tree<P>, eval: P -> Score, i: nat, alpha0: int, alpha: int, beta: int,
                                              best: int, choice: Option<nat>, seen: int)
    requires t.Node? && i <= |t.kids| && (choice.Some? ==> choice.value < |t.kids|)
    requires -Inf <= alpha0 < beta <= Inf
    requires alpha == Max(alpha0, best) && alpha < beta
    requires -Inf <= seen <= best
    requires best > alpha0 ==> seen == best
    ensures FailSoft(MaxLoop(t, eval, i, alpha, beta, best, choice).score, Max(seen, MaxValue(t, eval, i)), alpha0, beta)
    decreases t, 0, |t.kids| - i
  {
    if i < |t.kids| {
      var r := Search(t.kids[i], eval, alpha, beta, false).score;
      var best' := if r > best then r else best;
      var choice' := if r > best then Some(i) else choice;
      var alpha' := Max(alpha, best');
      SearchFailSoft(t.kids[i], eval, alpha, beta, false);
      var seen' := Max(seen, Value(t.kids[i], eval, false));
      if alpha' < beta {
        MaxLoopFailSoft(t, eval, i + 1, alpha0, alpha', beta, best', choice', seen');
      }
    }
  }

  /** The minimiser's loop from child i; the mirror image of MaxLoopFailSoft. */
  lemma {:induction false} MinLoopFailSoft<P>(t: Tree<P>, eval: P -> Score, i: nat, alpha: int, beta0: int, beta: int,
                                              best: int, choice: Option<nat>, seen: int)
    requires t.Node? && i <= |t.kids| && (choice.Some? ==> choice.value < |t.kids|)
    requires -Inf <= alpha < beta0 <= Inf
    requires beta == Min(beta0, best) && alpha < beta
    requires best <= seen <= Inf
    requires best < beta0 ==> seen == best
    ensures FailSoft(MinLoop(t, eval, i, alpha, beta, best, choice).score, Min(seen, MinValue(t, eval, i)), alpha, beta0)
    decreases t, 0, |t.kids| - i
  {
    if i < |t.kids| {
      var r := Search(t.kids[i], eval, alpha, beta, true).score;
      var best' := if r < best then r else best;
      var choice' := if r < best then Some(i) else choice;
      var beta' := Min(beta, best');
      SearchFailSoft(t.kids[i], eval, alpha, beta, true);
      var seen' := Min(seen, Value(t.kids[i], eval, true));
      if alpha < beta' {
        MinLoopFailSoft(t, eval, i + 1, alpha, beta0, beta', best', choice', seen');
      }
    }
  }

  /** The minimax value lies in [-Inf, Inf]. */
  lemma {:induction false} ValueWithin<P>(t: Tree<P>, eval: P -> Score, maximizing: bool)
    ensures -Inf <= Value(t, eval, maximizing) <= Inf
    decreases t, 1
  {
    match t
    case Leaf(_) =>
    case Node(_) =>
      if maximizing {
        MaxValueWithin(t, eval, 0);
      } else {
        MinValueWithin(t, eval, 0);
      }
  }

  lemma {:induction false} MaxValueWithin<P>(t: Tree<P>, eval: P -> Score, i: nat)
    requires t.Node? && i <= |t.kids|
    ensures MaxValue(t, eval, i) <= Inf
    decreases t, 0, |t.kids| - i
  {
    if i < |t.kids| {
      ValueWithin(t.kids[i], eval, false);
      MaxValueWithin(t, eval, i + 1);
    }
  }

  lemma {:induction false} MinValueWithin<P>(t: Tree<P>, eval: P -> Score, i: nat)
    requires t.Node? && i <= |t.kids|
    ensures MinValue(t, eval, i) >= -Inf
    decreases t, 0, |t.kids| - i
  {
    if i < |t.kids| {
      ValueWithin(t.kids[i], eval, true);
      MinValueWithin(t, eval, i + 1);
    }
  }

  /** The search result lies in [-Inf, Inf]. */
  lemma {:induction false} SearchWithin<P>(t: Tree<P>, eval: P -> Score, alpha: int, beta: int, maximizing: bool)
    ensures -Inf <= Search(t, eval, alpha, beta, maximizing).score <= Inf
    decreases t, 1
  {
    match t
    case Leaf(_) =>
    case Node(_) =>
      var first := if t.kids == [] then None else Some(0);
      if maximizing {
        MaxLoopWithin(t, eval, 0, alpha, beta, -Inf, first);
      } else {
        MinLoopWithin(t, eval, 0, alpha, beta, Inf, first);
      }
  }

  lemma {:induction false} MaxLoopWithin<P>(t: Tree<P>, eval: P -> Score, i: nat, alpha: int, beta: int, best: int, choice: Option<nat>)
    requires t.Node? && i <= |t.kids| && (choice.Some? ==> choice.value < |t.kids|)
    requires -Inf <= best <= Inf
    ensures -Inf <= MaxLoop(t, eval, i, alpha, beta, best, choice).score <= Inf
    decreases t, 0, |t.kids| - i
  {
    if i < |t.kids| {
      SearchWithin(t.kids[i], eval, alpha, beta, false);
      var r := Search(t.kids[i], eval, alpha, beta, false).score;
      var best' := if r > best then r else best;
      var choice' := if r > best then Some(i) else choice;
      MaxLoopWithin(t, eval, i + 1, Max(alpha, best'), beta, best', choice');
    }
  }

  lemma {:induction false} MinLoopWithin<P>(t: Tree<P>, eval: P -> Score, i: nat, alpha: int, beta: int, best: int, choice: Option<nat>)
    requires t.Node? && i <= |t.kids| && (choice.Some? ==> choice.value < |t.kids|)
    requires -Inf <= best <= Inf
    ensures -Inf <= MinLoop(t, eval, i, alpha, beta, best, choice).score <= Inf
    decreases t, 0, |t.kids| - i
  {
    if i < |t.kids| {
      SearchWithin(t.kids[i], eval, alpha, beta, true);
      var r := Search(t.kids[i], eval, alpha, beta, true).score;
      var best' := if r < best then r else best;
      var choice' := if r < best then Some(i) else choice;
      MinLoopWithin(t, eval, i + 1, alpha, Min(beta, best'), best', choice');
    }
  }

  /** Searched with the full window, alpha-beta returns the minimax value. */
  lemma FullWindowIsMinimax<P>(t: Tree<P>, eval: P -> Score, maximizing: bool)
    ensures Search(t, eval, -Inf, Inf, maximizing).score == Value(t, eval, maximizing)
  {
    SearchFailSoft(t, eval, -Inf, Inf, maximizing);
    ValueWithin(t, eval, maximizing);
  }

  /**
   * The minimiser's loop with alpha at -Inf: the child it keeps has the
   * score it keeps as its minimax value.
   */
  lemma {:induction false} MinChoiceAttains<P>(t: Tree<P>, eval: P -> Score, i: nat, beta: int, best: int, choice: Option<nat>)
    requires t.Node? && 0 < |t.kids| && i <= |t.kids|
    requires -Inf < beta == best <= Inf
    requires choice.Some? && choice.value < |t.kids|
    requires i == 0 ==> best == Inf && choice == Some(0)
    requires i > 0 ==> Value(t.kids[choice.value], eval, true) == best
    ensures var o := MinLoop(t, eval, i, -Inf, beta, best, choice);
            o.choice.Some? && Value(t.kids[o.choice.value], eval, true) == o.score
    decreases |t.kids| - i
  {
    if i < |t.kids| {
      var kid := t.kids[i];
      var r := Search(kid, eval, -Inf, beta, true).score;
      SearchFailSoft(kid, eval, -Inf, beta, true);
      SearchWithin(kid, eval, -Inf, beta, true);
      ValueWithin(kid, eval, true);
      var best' := if r < best then r else best;
      var choice' := if r < best then Some(i) else choice;
      if Min(beta, best') > -Inf {
        MinChoiceAttains(t, eval, i + 1, Min(beta, best'), best', choice');
      }
    }
  }

  /**
   * A full-window search at a minimising node with children chooses a child
   * whose minimax value is the node's own.
   */
  lemma MinimizerChoiceIsOptimal<P>(t: Tree<P>, eval: P -> Score)
    requires t.Node? && 0 < |t.kids|
    ensures Search(t, eval, -Inf, Inf, false).choice.Some?
    ensures Value(t.kids[Search(t, eval, -Inf, Inf, false).choice.value], eval, true) == Value(t, eval, false)
  {
    MinChoiceAttains(t, eval, 0, Inf, Inf, Some(0));
    FullWindowIsMinimax(t, eval, false);
  }
}
