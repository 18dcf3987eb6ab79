/** The game tree the computer's look-ahead explores, valued by plain minimax: the reference the
    alpha-beta search is measured against. A position is valued by evaluate_board when the game is
    over, the depth is used up or the side to move has no move; otherwise by the best of its moves
    for the side to move. A move that closes a mill with something to capture is valued by the
    best of its captures for the same side. */
module GameTree {
  import opened Topology
  import opened Rules
  import opened Evaluation

  /** Stands in for the infinite starting bounds: beyond every score evaluate_board can return. */
  const Inf: int := 1000000

  /** The side to move: the computer when maximizing, the player otherwise. */
  function Mover(maximizing: bool): Side
  {
    if maximizing then 2 else 1
  }

  /** The starting "best so far": minus infinity for the maximizer, plus infinity for the minimizer. */
  function Worst(maximizing: bool): int
  {
    if maximizing then -Inf else Inf
  }

  /** Strict improvement: a replaces b only if strictly larger (maximizer) or strictly smaller (minimizer). */
  predicate Better(maximizing: bool, a: int, b: int)
  {
    if maximizing then a > b else a < b
  }

  function Max(a: int, b: int): int
  {
    if a >= b then a else b
  }

  function Min(a: int, b: int): int
  {
    if a <= b then a else b
  }

  /** The best so far after a new value: replaced only on strict improvement. */
  function Improve(maximizing: bool, best: int, v: int): int
  {
    if Better(maximizing, v, best) then v else best
  }

  /** The lower window bound after the best so far has become e: the maximizer raises it. */
  function Raise(maximizing: bool, alpha: int, e: int): int
  {
    if maximizing then Max(alpha, e) else alpha
  }

  /** The upper window bound after the best so far has become e: the minimizer lowers it. */
  function Lower(maximizing: bool, beta: int, e: int): int
  {
    if maximizing then beta else Min(beta, e)
  }

  /** The better of two values for the side choosing. */
  function Pick(maximizing: bool, a: int, b: int): int
  {
    if maximizing then Max(a, b) else Min(a, b)
  }

  /** v is at least as good as w for the side choosing. */
  predicate Dominates(maximizing: bool, v: int, w: int)
  {
    if maximizing then w <= v else v <= w
  }

  /** One level further down the tree. */
  function Deeper(depth: nat): (d: nat)
    requires 0 < depth
    ensures d < depth
  {
    depth - 1
  }

  /** The minimax value of a position, with the given side to move and depth left. */
  function Minimax(st: State, depth: nat, maximizing: bool): int
    decreases depth, 3, 0
  {
    if GameOver(st).0 || depth == 0 then Evaluate(st)
    else
      var moves := ValidMoves(st, Mover(maximizing));
      if moves == [] then Evaluate(st) else BestOf(st, depth, moves, 0, maximizing)
  }

  /** The best value among moves i onwards, starting from the worst. */
  function BestOf(st: State, depth: nat, moves: seq<Move>, i: nat, maximizing: bool): int
    requires 0 < depth && i <= |moves|
    decreases depth, 2, |moves| - i
  {
    if i == |moves| then Worst(maximizing)
    else Pick(maximizing, MoveValue(st, depth, moves[i], maximizing), BestOf(st, depth, moves, i + 1, maximizing))
  }

  /** The value of a move: make it, then value the reply. */
  function MoveValue(st: State, depth: nat, m: Move, maximizing: bool): int
    requires 0 < depth
    decreases depth, 1, 1
  {
    var made := MakeMove(st, m, Mover(maximizing));
    ReplyValue(made.0, made.1, depth, maximizing)
  }

  /** The value after a move: the best capture when the move closed a mill and something can be
      captured, otherwise the opponent's turn one level down. */
  function ReplyValue(st: State, mill: bool, depth: nat, maximizing: bool): int
    requires 0 < depth
    decreases depth, 1, 0
  {
    var options := RemovalOptions(st.cells, Mover(maximizing), 0);
    if mill && options != [] then CaptureValue(st, depth, options, |options|, maximizing)
    else Minimax(st, Deeper(depth), !maximizing)
  }

  /** The best value among the first n captures, each valued by the opponent's turn one level down. */
  function CaptureValue(st: State, depth: nat, options: seq<int>, n: nat, maximizing: bool): int
    requires 0 < depth && n <= |options|
    requires forall k :: 0 <= k < |options| ==> 0 <= options[k] < NumCells
    decreases depth, 0, n
  {
    if n == 0 then Worst(maximizing)
    else
      var captured := Capture(st, options[n - 1], Opponent(Mover(maximizing)));
      Pick(maximizing, CaptureValue(st, depth, options, n - 1, maximizing), Minimax(captured, Deeper(depth), !maximizing))
  }

  /** The value of each capture of the list, in list order: the opponent's turn one level down
      after it. */
  function Outcomes(st: State, depth: nat, options: seq<int>, maximizing: bool): (r: seq<int>)
    requires 0 < depth
    requires forall k :: 0 <= k < |options| ==> 0 <= options[k] < NumCells
    ensures |r| == |options|
    ensures forall k :: 0 <= k < |options| ==>
      r[k] == Minimax(Capture(st, options[k], Opponent(Mover(maximizing))), Deeper(depth), !maximizing)
  {
    seq(|options|, k requires 0 <= k < |options| =>
      Minimax(Capture(st, options[k], Opponent(Mover(maximizing))), Deeper(depth), !maximizing))
  }

  /** Among the first n entries of vals, the value of each option in turn, the one removed is the
      first whose value is v: its value is v and every entry before it is strictly worse for the
      side choosing. */
  predicate FirstBest(vals: seq<int>, options: seq<int>, n: nat, v: int, remove: Option<int>, maximizing: bool)
    requires |vals| == |options| && n <= |options|
  {
    exists c :: 0 <= c < n && remove == Some(options[c]) && vals[c] == v &&
      forall k :: 0 <= k < c ==> Better(maximizing, v, vals[k])
  }

  /** Among the first n captures, the one removed is the first whose value is v. */
  predicate FirstBestCapture(st: State, depth: nat, options: seq<int>, n: nat, v: int, remove: Option<int>, maximizing: bool)
    requires 0 < depth && n <= |options|
    requires forall k :: 0 <= k < |options| ==> 0 <= options[k] < NumCells
  {
    FirstBest(Outcomes(st, depth, options, maximizing), options, n, v, remove, maximizing)
  }

  /** The best of a list dominates the worst value and every move of the list, and is the worst
      value or the value of one of its moves. */
  lemma {:induction false} BestOfMeaning(st: State, depth: nat, moves: seq<Move>, i: nat, maximizing: bool)
    requires 0 < depth && i <= |moves|
    ensures Dominates(maximizing, BestOf(st, depth, moves, i, maximizing), Worst(maximizing))
    ensures forall k :: i <= k < |moves| ==>
      Dominates(maximizing, BestOf(st, depth, moves, i, maximizing), MoveValue(st, depth, moves[k], maximizing))
    ensures BestOf(st, depth, moves, i, maximizing) == Worst(maximizing) ||
      exists k :: i <= k < |moves| && BestOf(st, depth, moves, i, maximizing) == MoveValue(st, depth, moves[k], maximizing)
    decreases |moves| - i
  {
    if i < |moves| {
      BestOfMeaning(st, depth, moves, i + 1, maximizing);
    }
  }

  /** The best of a list does not depend on the order of the moves, nor on repetitions: two lists
      with the same moves have the same best value. */
  lemma BestOfSameMoves(st: State, depth: nat, a: seq<Move>, b: seq<Move>, maximizing: bool)
    requires 0 < depth
    requires forall m :: m in a ==> m in b
    requires forall m :: m in b ==> m in a
    ensures BestOf(st, depth, a, 0, maximizing) == BestOf(st, depth, b, 0, maximizing)
  {
    BestOfMeaning(st, depth, a, 0, maximizing);
    BestOfMeaning(st, depth, b, 0, maximizing);
    BestOfDominates(st, depth, a, b, maximizing);
    BestOfDominates(st, depth, b, a, maximizing);
  }

  lemma BestOfDominates(st: State, depth: nat, a: seq<Move>, b: seq<Move>, maximizing: bool)
    requires 0 < depth
    requires forall m :: m in b ==> m in a
    ensures Dominates(maximizing, BestOf(st, depth, a, 0, maximizing), BestOf(st, depth, b, 0, maximizing))
  {
    BestOfMeaning(st, depth, a, 0, maximizing);
    BestOfMeaning(st, depth, b, 0, maximizing);
    var v := BestOf(st, depth, b, 0, maximizing);
    if v != Worst(maximizing) {
      var k :| 0 <= k < |b| && v == MoveValue(st, depth, b[k], maximizing);
      assert b[k] in a;
      var k' :| 0 <= k' < |a| && a[k'] == b[k];
      assert Dominates(maximizing, BestOf(st, depth, a, 0, maximizing), MoveValue(st, depth, a[k'], maximizing));
    }
  }

  // ---------------------------------------------------------------------------
  // Fail-soft values

  /** What an alpha-beta value v, searched with window (alpha, beta), says about the true value m:
      a value at or below alpha is an upper bound, one at or above beta a lower bound, and one
      strictly inside the window is exact. */
  predicate FailSoft(alpha: int, beta: int, v: int, m: int)
  {
    (v <= alpha ==> m <= v) && (beta <= v ==> v <= m) && (alpha < v < beta ==> m == v)
  }

  /** Every score evaluate_board gives on a reachable position lies within 20000 either way,
      well inside the infinite bounds. */
  predicate Bounded(v: int)
  {
    -20000 <= v <= 20000
  }

  /** A search window within the infinite bounds, not yet closed. */
  predicate Window(alpha: int, beta: int)
  {
    -Inf <= alpha < beta <= Inf
  }

  /** The loop's best so far has not yet moved the window past itself, and lies within the bounds. */
  predicate Settled(maximizing: bool, alpha: int, beta: int, bestEval: int)
  {
    if maximizing then -Inf <= bestEval <= alpha else beta <= bestEval <= Inf
  }

  /** Improving a fail-soft value with another one searched with the same window gives a
      fail-soft value of the better of the two true values: why a loop without cut-offs over one
      window is sound. */
  lemma ImproveFailSoft(maximizing: bool, alpha: int, beta: int, v1: int, m1: int, v2: int, m2: int)
    ensures FailSoft(alpha, beta, v1, m1) && FailSoft(alpha, beta, v2, m2) ==>
      FailSoft(alpha, beta, Improve(maximizing, v1, v2), Pick(maximizing, m1, m2))
  {
  }

  /** A possible score always improves on the starting worst value, and improving a possible
      score (or the starting worst value) with a possible score gives a possible score. */
  lemma ImproveBounded(maximizing: bool, best: int, v: int)
    ensures Bounded(v) ==> Better(maximizing, v, Worst(maximizing))
    ensures Bounded(v) && (Bounded(best) || best == Worst(maximizing)) ==> Bounded(Improve(maximizing, best, v))
  {
  }

  /** The step of the move loop that closes the window: the best so far, now a fail-high (or
      fail-low) value, bounds the best over the remaining moves whatever they are worth. */
  lemma LoopCut(maximizing: bool, alpha: int, beta: int, bestEval: int, c: int, mc: int, mrest: int)
    ensures (Window(alpha, beta) && Settled(maximizing, alpha, beta, bestEval) && FailSoft(alpha, beta, c, mc) &&
             Lower(maximizing, beta, Improve(maximizing, bestEval, c)) <= Raise(maximizing, alpha, Improve(maximizing, bestEval, c))) ==>
      FailSoft(alpha, beta, Improve(maximizing, bestEval, c), Pick(maximizing, mc, mrest)) &&
      Dominates(maximizing, Improve(maximizing, bestEval, c), bestEval)
  {
  }

  /** The step of the move loop that goes on: the narrowed window is still open and the new best
      so far is settled in it. */
  lemma LoopNarrow(maximizing: bool, alpha: int, beta: int, bestEval: int, c: int)
    ensures (Window(alpha, beta) && Settled(maximizing, alpha, beta, bestEval) &&
             Raise(maximizing, alpha, Improve(maximizing, bestEval, c)) < Lower(maximizing, beta, Improve(maximizing, bestEval, c))) ==>
      var e := Improve(maximizing, bestEval, c);
      Window(Raise(maximizing, alpha, e), Lower(maximizing, beta, e)) &&
      Settled(maximizing, Raise(maximizing, alpha, e), Lower(maximizing, beta, e), e)
  {
  }

  /** ... and a fail-soft value of the remaining moves under the narrowed window is one of this
      move and the remaining ones under the old window. */
  lemma LoopContinue(maximizing: bool, alpha: int, beta: int, bestEval: int, c: int, mc: int, v: int, mrest: int)
    ensures (Window(alpha, beta) && Settled(maximizing, alpha, beta, bestEval) && FailSoft(alpha, beta, c, mc) &&
             var e := Improve(maximizing, bestEval, c);
             Raise(maximizing, alpha, e) < Lower(maximizing, beta, e) &&
             FailSoft(Raise(maximizing, alpha, e), Lower(maximizing, beta, e), v, mrest) && Dominates(maximizing, v, e)) ==>
      FailSoft(alpha, beta, v, Pick(maximizing, mc, mrest)) && Dominates(maximizing, v, bestEval)
  {
  }
}
