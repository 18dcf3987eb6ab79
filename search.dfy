/** The computer's look-ahead: depth-limited minimax with alpha-beta pruning over compound
    actions (a move, plus a capture when the move closes a mill), played out by make/unmake on the
    engine's own state. The functions here follow the engine's calls one for one, including what
    the search leaves behind in the bomb list, the last-move records and the winner. */
module Search {
  import opened Topology
  import opened Rules
  import opened Bombs
  import opened Evaluation
  import opened Engine
  import opened GameTree

  /** A chosen action: the move and, when it closes a mill, the point captured (None otherwise). */
  datatype Action = Action(move: Move, remove: Option<int>)

  /** What a search call returns, and the engine state it leaves. */
  datatype SearchResult = SearchResult(value: int, best: Option<Action>, after: Game)

  /** What trying one move returns: its value, the capture chosen for it, and the state left. */
  datatype BranchResult = BranchResult(value: int, remove: Option<int>, after: Game)

  // ---------------------------------------------------------------------------
  // Move ordering

  /** A move whose points are on the board (origin -1 for a placement). */
  predicate OnBoardMove(m: Move)
  {
    0 <= m.to < NumCells && (m.from == PlaceOrigin || 0 <= m.from < NumCells)
  }

  predicate OnBoardMoves(ms: seq<Move>)
  {
    forall i :: 0 <= i < |ms| ==> OnBoardMove(ms[i])
  }

  /** move_creates_mill_heuristic: would the move, tried on the board, close a mill? A move onto an
      occupied point, or from a point p does not hold, does not. */
  function CreatesMill(cells: Cells, m: Move, p: Side): bool
    requires OnBoardMove(m)
  {
    if cells[m.to] != 0 then false
    else if m.from != PlaceOrigin && cells[m.from] != p then false
    else
      var lifted := if m.from != PlaceOrigin then cells[m.from := 0] else cells;
      FormsMill(lifted[m.to := p], m.to, p)
  }

  /** For a legal move, the heuristic predicts exactly what make_move will report. */
  lemma CreatesMillPredicts(st: State, m: Move, p: Side)
    requires Legal(st, m, p)
    ensures OnBoardMove(m)
    ensures CreatesMill(st.cells, m, p) == MakeMove(st, m, p).1
  {
  }

  /** Every listed move has its points on the board. */
  lemma ValidMovesOnBoard(st: State, p: Side)
    ensures OnBoardMoves(ValidMoves(st, p))
  {
    var ms := ValidMoves(st, p);
    forall i | 0 <= i < |ms|
      ensures OnBoardMove(ms[i])
    {
      ValidMoveOnBoard(st, p, ms[i]);
    }
  }

  lemma ValidMoveOnBoard(st: State, p: Side, m: Move)
    requires m in ValidMoves(st, p)
    ensures OnBoardMove(m)
  {
    if st.ToPlace(p) > 0 {
      PlacementOnBoard(st, p, m);
    } else if st.OnBoard(p) <= 3 {
      FlyingOnBoard(st, p, m);
    } else {
      SlidingOnBoard(st, p, m);
    }
  }

  lemma PlacementOnBoard(st: State, p: Side, m: Move)
    requires st.ToPlace(p) > 0 && m in ValidMoves(st, p)
    ensures OnBoardMove(m)
  {
    assert ValidMoves(st, p) == Targets(PlaceOrigin, Pieces(st.cells, 0, 0));
    TargetsMembership(PlaceOrigin, Pieces(st.cells, 0, 0), m);
    PiecesExact(st.cells, 0, 0, m.to);
  }

  lemma FlyingOnBoard(st: State, p: Side, m: Move)
    requires st.ToPlace(p) <= 0 && st.OnBoard(p) <= 3 && m in ValidMoves(st, p)
    ensures OnBoardMove(m)
  {
    assert ValidMoves(st, p) == FlyMoves(Pieces(st.cells, p, 0), Pieces(st.cells, 0, 0));
    FlyMovesOnBoard(st.cells, p, m);
  }

  lemma SlidingOnBoard(st: State, p: Side, m: Move)
    requires st.ToPlace(p) <= 0 && st.OnBoard(p) > 3 && m in ValidMoves(st, p)
    ensures OnBoardMove(m)
  {
    var ps := Pieces(st.cells, p, 0);
    assert ValidMoves(st, p) == StepMoves(st.cells, ps);
    StepMovesMembership(st.cells, ps, m);
  }

  /** The moves of ms, in order, for which the heuristic says `creates`. */
  function Filter(cells: Cells, ms: seq<Move>, p: Side, creates: bool): (r: seq<Move>)
    requires OnBoardMoves(ms)
    ensures |r| <= |ms|
    ensures forall i :: 0 <= i < |r| ==> OnBoardMove(r[i]) && CreatesMill(cells, r[i], p) == creates
  {
    if ms == [] then []
    else (if CreatesMill(cells, ms[0], p) == creates then [ms[0]] else []) + Filter(cells, ms[1..], p, creates)
  }

  /** Filtering a list one move longer keeps the extra move at the end when it passes. */
  lemma {:induction false} FilterSnoc(cells: Cells, ms: seq<Move>, m: Move, p: Side, creates: bool)
    requires OnBoardMoves(ms) && OnBoardMove(m)
    ensures OnBoardMoves(ms + [m])
    ensures Filter(cells, ms + [m], p, creates) ==
      Filter(cells, ms, p, creates) + (if CreatesMill(cells, m, p) == creates then [m] else [])
    decreases |ms|
  {
    if ms != [] {
      var rest := ms[1..];
      assert OnBoardMoves(rest);
      assert (ms + [m])[1..] == rest + [m];
      FilterSnoc(cells, rest, m, p, creates);
      var tail := if CreatesMill(cells, m, p) == creates then [m] else [];
      if CreatesMill(cells, ms[0], p) == creates {
        assert Filter(cells, ms + [m], p, creates) == [ms[0]] + Filter(cells, rest + [m], p, creates);
        assert Filter(cells, ms, p, creates) == [ms[0]] + Filter(cells, rest, p, creates);
        assert [ms[0]] + (Filter(cells, rest, p, creates) + tail) == ([ms[0]] + Filter(cells, rest, p, creates)) + tail;
      } else {
        assert Filter(cells, ms + [m], p, creates) == Filter(cells, rest + [m], p, creates);
        assert Filter(cells, ms, p, creates) == Filter(cells, rest, p, creates);
      }
    }
  }

  /** The stable descending sort on the heuristic: mill-closing moves first, each group in list order. */
  function Order(cells: Cells, ms: seq<Move>, p: Side): seq<Move>
    requires OnBoardMoves(ms)
  {
    Filter(cells, ms, p, true) + Filter(cells, ms, p, false)
  }

  /** The valid moves of p in the order the search tries them. */
  function OrderedMoves(st: State, p: Side): seq<Move>
  {
    ValidMovesOnBoard(st, p);
    Order(st.cells, ValidMoves(st, p), p)
  }

  /** a is b with some elements left out: each element of b is either kept, in place, or dropped. */
  predicate Subsequence(a: seq<Move>, b: seq<Move>)
    decreases |b|
  {
    if b == [] then a == []
    else (a != [] && a[0] == b[0] && Subsequence(a[1..], b[1..])) || Subsequence(a, b[1..])
  }

  /** Each group of the ordering keeps the list order: the sort is stable. */
  lemma {:induction false} FilterKeepsOrder(cells: Cells, ms: seq<Move>, p: Side, creates: bool)
    requires OnBoardMoves(ms)
    ensures Subsequence(Filter(cells, ms, p, creates), ms)
  {
    if ms != [] {
      var rest := ms[1..];
      assert OnBoardMoves(rest);
      FilterKeepsOrder(cells, rest, p, creates);
      var f := Filter(cells, rest, p, creates);
      if CreatesMill(cells, ms[0], p) == creates {
        assert Filter(cells, ms, p, creates) == [ms[0]] + f;
        assert ([ms[0]] + f)[1..] == f;
      } else {
        assert Filter(cells, ms, p, creates) == f;
      }
    }
  }

  lemma {:induction false} FilterSplits(cells: Cells, ms: seq<Move>, p: Side)
    requires OnBoardMoves(ms)
    ensures multiset(Filter(cells, ms, p, true)) + multiset(Filter(cells, ms, p, false)) == multiset(ms)
  {
    if ms != [] {
      var rest := ms[1..];
      assert OnBoardMoves(rest);
      FilterSplits(cells, rest, p);
      assert multiset(ms) == multiset{ms[0]} + multiset(rest) by {
        assert ms == [ms[0]] + rest;
      }
      var t, f := Filter(cells, rest, p, true), Filter(cells, rest, p, false);
      if CreatesMill(cells, ms[0], p) {
        assert Filter(cells, ms, p, true) == [ms[0]] + t;
        assert Filter(cells, ms, p, false) == f;
        assert multiset(Filter(cells, ms, p, true)) == multiset{ms[0]} + multiset(t);
      } else {
        assert Filter(cells, ms, p, true) == t;
        assert Filter(cells, ms, p, false) == [ms[0]] + f;
        assert multiset(Filter(cells, ms, p, false)) == multiset{ms[0]} + multiset(f);
      }
    }
  }

  /** The ordering is a permutation of the list, and every mill-closing move comes before every other. */
  lemma OrderMeaning(cells: Cells, ms: seq<Move>, p: Side)
    requires OnBoardMoves(ms)
    ensures multiset(Order(cells, ms, p)) == multiset(ms)
    ensures OnBoardMoves(Order(cells, ms, p))
    ensures forall i, j :: 0 <= i < j < |Order(cells, ms, p)| && CreatesMill(cells, Order(cells, ms, p)[j], p) ==>
      CreatesMill(cells, Order(cells, ms, p)[i], p)
  {
    FilterSplits(cells, ms, p);
    var a := Filter(cells, ms, p, true);
    var o := Order(cells, ms, p);
    forall i, j | 0 <= i < j < |o| && CreatesMill(cells, o[j], p)
      ensures CreatesMill(cells, o[i], p)
    {
      assert o[i] == a[i];
    }
  }

  /** A move is tried exactly when it is listed. */
  lemma OrderMembership(cells: Cells, ms: seq<Move>, p: Side, m: Move)
    requires OnBoardMoves(ms)
    ensures m in Order(cells, ms, p) <==> m in ms
  {
    OrderMeaning(cells, ms, p);
    assert m in Order(cells, ms, p) <==> m in multiset(Order(cells, ms, p));
  }

  // ---------------------------------------------------------------------------
  // The search

  /** alpha_beta_search on the engine value, from the side to move (the computer when maximizing).
      A finished game, depth 0 or a side with no moves is scored by evaluate_board with no action;
      otherwise the moves are tried in heuristic order. Whatever the search does on the way, it
      hands back the board and counters as it found them, and the same bombs. On a position the
      game can reach, the value is a score evaluate_board can give, an action is returned exactly
      when the search did not stop at once, and that action is one the mover may play. */
  function Search(g: Game, depth: nat, alpha: int, beta: int, maximizing: bool): (r: SearchResult)
    ensures PoolsNonNegative(g.st) ==> Restored(g, r.after)
    ensures Consistent(g.st) ==> Bounded(r.value)
    ensures Consistent(g.st) ==>
      (r.best.Some? <==> !GameOver(g.st).0 && depth > 0 && ValidMoves(g.st, Mover(maximizing)) != [])
    ensures Consistent(g.st) && r.best.Some? ==> Chosen(g.st, r.best.value, Mover(maximizing))
    ensures PoolsNonNegative(g.st) && Window(alpha, beta) ==> FailSoft(alpha, beta, r.value, Minimax(g.st, depth, maximizing))
    decreases depth, 6, 0
  {
    var over := CheckGameOver(g);
    ScoreBounded(g.st);
    if over.0 || depth == 0 then
      var s := Score(over.1);
      SearchResult(s.0, None, s.1)
    else
      var side := Mover(maximizing);
      var moves := ValidMoves(over.1.st, side);
      if moves == [] then
        var s := Score(over.1);
        SearchResult(s.0, None, s.1)
      else
        Expand(over.1, depth, alpha, beta, maximizing)
  }

  /** A position the search does not stop at: the mover's valid moves, most promising first, go
      through the mover's loop from a worst-possible best so far. */
  function Expand(g: Game, depth: nat, alpha: int, beta: int, maximizing: bool): (r: SearchResult)
    requires 0 < depth && ValidMoves(g.st, Mover(maximizing)) != []
    ensures PoolsNonNegative(g.st) ==> Restored(g, r.after)
    ensures Consistent(g.st) ==> Bounded(r.value) && r.best.Some? && Chosen(g.st, r.best.value, Mover(maximizing))
    ensures PoolsNonNegative(g.st) && Window(alpha, beta) ==>
      FailSoft(alpha, beta, r.value, BestOf(g.st, depth, ValidMoves(g.st, Mover(maximizing)), 0, maximizing))
    decreases depth, 5, 0
  {
    var side := Mover(maximizing);
    var moves := ValidMoves(g.st, side);
    ValidMovesOnBoard(g.st, side);
    OrderWithin(g.st.cells, moves, side);
    OrderSameMoves(g.st, depth, moves, maximizing);
    var ordered := Order(g.st.cells, moves, side);
    if maximizing then MaxLoop(g, depth, ordered, 0, alpha, beta, Worst(true), None)
    else MinLoop(g, depth, ordered, 0, alpha, beta, Worst(false), None)
  }

  /** A search that returns an action went through Expand on the engine with the winner recorded. */
  lemma SearchSteps(g: Game, depth: nat, alpha: int, beta: int, maximizing: bool)
    ensures Search(g, depth, alpha, beta, maximizing).best.Some? ==>
      0 < depth && ValidMoves(g.st, Mover(maximizing)) != [] &&
      Search(g, depth, alpha, beta, maximizing) == Expand(CheckGameOver(g).1, depth, alpha, beta, maximizing)
  {
  }

  /** Expand, step by step: the mover's loop over the ordered moves. */
  lemma ExpandSteps(g: Game, depth: nat, alpha: int, beta: int, maximizing: bool)
    requires 0 < depth && ValidMoves(g.st, Mover(maximizing)) != []
    ensures var ordered := OrderedMoves(g.st, Mover(maximizing));
      Expand(g, depth, alpha, beta, maximizing) ==
        if maximizing then MaxLoop(g, depth, ordered, 0, alpha, beta, Worst(true), None)
        else MinLoop(g, depth, ordered, 0, alpha, beta, Worst(false), None)
  {
  }

  /** The computer's move loop from move i on, with the current window and best so far. A move
      replaces the best only on strict improvement, alpha is raised to the best so far, and the
      loop stops as soon as beta <= alpha. Over a list of valid moves it restores the state, keeps
      the value a possible score once one branch has been tried, only ever picks a listed action,
      and its value is a fail-soft value of the best of the remaining moves. */
  function MaxLoop(g: Game, depth: nat, moves: seq<Move>, i: nat, alpha: int, beta: int,
                    bestEval: int, best: Option<Action>): (r: SearchResult)
    requires 0 < depth && i <= |moves|
    ensures PoolsNonNegative(g.st) && Listed(moves, ValidMoves(g.st, Mover(true))) ==> Restored(g, r.after)
    ensures (Consistent(g.st) && Listed(moves, ValidMoves(g.st, Mover(true))) &&
             (Bounded(bestEval) || (i < |moves| && bestEval == Worst(true)))) ==> Bounded(r.value)
    ensures (Consistent(g.st) && Listed(moves, ValidMoves(g.st, Mover(true))) &&
             (best.Some? || (i < |moves| && bestEval == Worst(true)))) ==> r.best.Some?
    ensures (Consistent(g.st) && Listed(moves, ValidMoves(g.st, Mover(true))) &&
             (best.Some? ==> Chosen(g.st, best.value, Mover(true)))) ==>
      (r.best.Some? ==> Chosen(g.st, r.best.value, Mover(true)))
    ensures (PoolsNonNegative(g.st) && Listed(moves, ValidMoves(g.st, Mover(true))) &&
             Window(alpha, beta) && Settled(true, alpha, beta, bestEval)) ==>
      FailSoft(alpha, beta, r.value, BestOf(g.st, depth, moves, i, true)) && Dominates(true, r.value, bestEval)
    decreases depth, 4, |moves| - i
  {
    if i == |moves| then SearchResult(bestEval, best, g)
    else
      var br := Branch(g, depth, moves[i], alpha, beta, true);
      var newEval := Improve(true, bestEval, br.value);
      var newBest := if Better(true, br.value, bestEval) then Some(Action(moves[i], br.remove)) else best;
      var newAlpha := Max(alpha, newEval);
      ConsistentPools(g.st);
      ImproveBounded(true, bestEval, br.value);
      if beta <= newAlpha then
        LoopCut(true, alpha, beta, bestEval, br.value, MoveValue(g.st, depth, moves[i], true),
                BestOf(g.st, depth, moves, i + 1, true));
        SearchResult(newEval, newBest, br.after)
      else
        LoopNarrow(true, alpha, beta, bestEval, br.value);
        var rest := MaxLoop(br.after, depth, moves, i + 1, newAlpha, beta, newEval, newBest);
        LoopContinue(true, alpha, beta, bestEval, br.value, MoveValue(g.st, depth, moves[i], true),
                     rest.value, BestOf(g.st, depth, moves, i + 1, true));
        rest
  }

  /** The player's move loop, the mirror image: beta is lowered to the best so far. */
  function MinLoop(g: Game, depth: nat, moves: seq<Move>, i: nat, alpha: int, beta: int,
                    bestEval: int, best: Option<Action>): (r: SearchResult)
    requires 0 < depth && i <= |moves|
    ensures PoolsNonNegative(g.st) && Listed(moves, ValidMoves(g.st, Mover(false))) ==> Restored(g, r.after)
    ensures (Consistent(g.st) && Listed(moves, ValidMoves(g.st, Mover(false))) &&
             (Bounded(bestEval) || (i < |moves| && bestEval == Worst(false)))) ==> Bounded(r.value)
    ensures (Consistent(g.st) && Listed(moves, ValidMoves(g.st, Mover(false))) &&
             (best.Some? || (i < |moves| && bestEval == Worst(false)))) ==> r.best.Some?
    ensures (Consistent(g.st) && Listed(moves, ValidMoves(g.st, Mover(false))) &&
             (best.Some? ==> Chosen(g.st, best.value, Mover(false)))) ==>
      (r.best.Some? ==> Chosen(g.st, r.best.value, Mover(false)))
    ensures (PoolsNonNegative(g.st) && Listed(moves, ValidMoves(g.st, Mover(false))) &&
             Window(alpha, beta) && Settled(false, alpha, beta, bestEval)) ==>
      FailSoft(alpha, beta, r.value, BestOf(g.st, depth, moves, i, false)) && Dominates(false, r.value, bestEval)
    decreases depth, 4, |moves| - i
  {
    if i == |moves| then SearchResult(bestEval, best, g)
    else
      var br := Branch(g, depth, moves[i], alpha, beta, false);
      var newEval := Improve(false, bestEval, br.value);
      var newBest := if Better(false, br.value, bestEval) then Some(Action(moves[i], br.remove)) else best;
      var newBeta := Min(beta, newEval);
      ConsistentPools(g.st);
      ImproveBounded(false, bestEval, br.value);
      if newBeta <= alpha then
        LoopCut(false, alpha, beta, bestEval, br.value, MoveValue(g.st, depth, moves[i], false),
                BestOf(g.st, depth, moves, i + 1, false));
        SearchResult(newEval, newBest, br.after)
      else
        LoopNarrow(false, alpha, beta, bestEval, br.value);
        var rest := MinLoop(br.after, depth, moves, i + 1, alpha, newBeta, newEval, newBest);
        LoopContinue(false, alpha, beta, bestEval, br.value, MoveValue(g.st, depth, moves[i], false),
                     rest.value, BestOf(g.st, depth, moves, i + 1, false));
        rest
  }

  /** One turn of the computer's move loop, step by step. */
  lemma MaxLoopStep(g: Game, depth: nat, moves: seq<Move>, i: nat, alpha: int, beta: int,
                    bestEval: int, best: Option<Action>)
    requires 0 < depth && i < |moves|
    ensures var br := Branch(g, depth, moves[i], alpha, beta, true);
      var e := Improve(true, bestEval, br.value);
      var next := if Better(true, br.value, bestEval) then Some(Action(moves[i], br.remove)) else best;
      MaxLoop(g, depth, moves, i, alpha, beta, bestEval, best) ==
        if beta <= Max(alpha, e) then SearchResult(e, next, br.after)
        else MaxLoop(br.after, depth, moves, i + 1, Max(alpha, e), beta, e, next)
  {
  }

  /** One turn of the player's move loop, step by step. */
  lemma MinLoopStep(g: Game, depth: nat, moves: seq<Move>, i: nat, alpha: int, beta: int,
                    bestEval: int, best: Option<Action>)
    requires 0 < depth && i < |moves|
    ensures var br := Branch(g, depth, moves[i], alpha, beta, false);
      var e := Improve(false, bestEval, br.value);
      var next := if Better(false, br.value, bestEval) then Some(Action(moves[i], br.remove)) else best;
      MinLoop(g, depth, moves, i, alpha, beta, bestEval, best) ==
        if Min(beta, e) <= alpha then SearchResult(e, next, br.after)
        else MinLoop(br.after, depth, moves, i + 1, alpha, Min(beta, e), e, next)
  {
  }

  /** Trying one move: make it, search the reply, then undo the move with the record make_move left.
      For a valid move the state comes back, the value is a possible score, and a capture is
      reported exactly when the move closed a mill and something could be captured, and it is a
      valid one. */
  function Branch(g: Game, depth: nat, m: Move, alpha: int, beta: int, maximizing: bool): (r: BranchResult)
    requires 0 < depth
    ensures PoolsNonNegative(g.st) && m in ValidMoves(g.st, Mover(maximizing)) ==> Restored(g, r.after)
    ensures Consistent(g.st) && m in ValidMoves(g.st, Mover(maximizing)) ==>
      Bounded(r.value) && CaptureFits(MakeMove(g.st, m, Mover(maximizing)), r.remove, Mover(maximizing))
    ensures PoolsNonNegative(g.st) && m in ValidMoves(g.st, Mover(maximizing)) && Window(alpha, beta) ==>
      FailSoft(alpha, beta, r.value, MoveValue(g.st, depth, m, maximizing))
    decreases depth, 3, 0
  {
    var side := Mover(maximizing);
    var played := Play(g, m, side);
    PlayRestorable(g, m, side);
    PlayConsistent(g, m, side);
    var r := Reply(played.0, played.1, depth, alpha, beta, maximizing);
    BranchResult(r.value, r.remove, Undo(r.after, LastMove(played.0, side), side))
  }

  /** The reply to a move just made: one search of the opponent's turn, or, when the move closed a
      mill and something can be captured, one per capture. */
  function Reply(g: Game, mill: bool, depth: nat, alpha: int, beta: int, maximizing: bool): (r: BranchResult)
    requires 0 < depth
    ensures PoolsNonNegative(g.st) ==> Restored(g, r.after)
    ensures Consistent(g.st) ==> Bounded(r.value) && CaptureFits((g.st, mill), r.remove, Mover(maximizing))
    ensures PoolsNonNegative(g.st) && Window(alpha, beta) ==> FailSoft(alpha, beta, r.value, ReplyValue(g.st, mill, depth, maximizing))
    decreases depth, 2, 0
  {
    if mill && RemovalOptions(g.st.cells, Mover(maximizing), 0) != [] then
      Captures(g, depth, alpha, beta, maximizing)
    else
      var s := Search(g, Deeper(depth), alpha, beta, !maximizing);
      BranchResult(s.value, None, s.after)
  }

  /** The two ways a reply goes, step by step. */
  lemma ReplySteps(g: Game, mill: bool, depth: nat, alpha: int, beta: int, maximizing: bool)
    requires 0 < depth
    ensures mill && RemovalOptions(g.st.cells, Mover(maximizing), 0) != [] ==>
      Reply(g, mill, depth, alpha, beta, maximizing) == Captures(g, depth, alpha, beta, maximizing)
    ensures !(mill && RemovalOptions(g.st.cells, Mover(maximizing), 0) != []) ==>
      Reply(g, mill, depth, alpha, beta, maximizing) ==
        BranchResult(Search(g, Deeper(depth), alpha, beta, !maximizing).value, None, Search(g, Deeper(depth), alpha, beta, !maximizing).after)
  {
  }

  /** The captures after a move that closed a mill, when there is at least one: each is tried in
      turn by the capture loop of the side that moved, and the best one is reported. */
  function Captures(g: Game, depth: nat, alpha: int, beta: int, maximizing: bool): (r: BranchResult)
    requires 0 < depth && RemovalOptions(g.st.cells, Mover(maximizing), 0) != []
    ensures PoolsNonNegative(g.st) ==> Restored(g, r.after)
    ensures Consistent(g.st) ==> Bounded(r.value) && CaptureFits((g.st, true), r.remove, Mover(maximizing))
    ensures PoolsNonNegative(g.st) && Window(alpha, beta) ==>
      FailSoft(alpha, beta, r.value, ReplyValue(g.st, true, depth, maximizing))
    decreases depth, 1, 0
  {
    var options := RemovalOptions(g.st.cells, Mover(maximizing), 0);
    RemovalOptionsValid(g.st.cells, Mover(maximizing));
    var r := if maximizing then MaxCaptureLoop(g, depth, options, 0, alpha, beta, Worst(true), None)
             else MinCaptureLoop(g, depth, options, 0, alpha, beta, Worst(false), None);
    CaptureListed(g.st.cells, Mover(maximizing), r.remove);
    r
  }

  /** Putting a captured piece back: the point gets its old value and the owner's on-board count
      its piece. */
  function Restore(st: State, pos: Index, original: Cell, owner: Side): State
  {
    st.(cells := st.cells[pos := original]).WithCounters(owner, st.ToPlace(owner), st.OnBoard(owner) + 1)
  }

  /** One capture of the capture loop: the capture is made by hand (the first bomb on the point
      detached), the reply searched with the given window, then the piece put back and the bomb
      appended at the end of the list. */
  function TryCapture(g: Game, depth: nat, r: Index, alpha: int, beta: int, maximizing: bool): (t: (int, Game))
    requires 0 < depth
    ensures PoolsNonNegative(g.st) ==> Restored(g, t.1)
    ensures Consistent(g.st) && IsValidRemoval(g.st.cells, r, Mover(maximizing)) ==> Bounded(t.0)
    ensures PoolsNonNegative(g.st) && Window(alpha, beta) ==>
      FailSoft(alpha, beta, t.0, Minimax(Capture(g.st, r, Opponent(Mover(maximizing))), Deeper(depth), !maximizing))
    decreases depth, 0, 0
  {
    var opponent := Opponent(Mover(maximizing));
    var detached := Detach(g.bombs, r);
    var captured := g.(st := Capture(g.st, r, opponent), bombs := detached.0);
    CapturePools(g.st, r, opponent);
    CaptureConsistent(g.st, r, Mover(maximizing));
    var s := Search(captured, Deeper(depth), alpha, beta, !maximizing);
    PutBackRestores(g, r, opponent, s.after);
    (s.value, PutBack(s.after, r, g.st.cells[r], opponent, detached.1))
  }

  /** One capture of the capture loop, step by step: on the state with the capture made by hand,
      the search, then the put-back with the point's old value and the detached bomb. */
  lemma TryCaptureSteps(g: Game, depth: nat, r: Index, alpha: int, beta: int, maximizing: bool, captured: Game)
    requires 0 < depth
    requires captured == g.(st := Capture(g.st, r, Opponent(Mover(maximizing))), bombs := Detach(g.bombs, r).0)
    ensures TryCapture(g, depth, r, alpha, beta, maximizing) ==
      (Search(captured, Deeper(depth), alpha, beta, !maximizing).value,
       PutBack(Search(captured, Deeper(depth), alpha, beta, !maximizing).after, r, g.st.cells[r],
               Opponent(Mover(maximizing)), Detach(g.bombs, r).1))
  {
  }

  /** Undoing a hand-made capture: the piece back on its point and the detached bomb, if any, at
      the end of the list. */
  function PutBack(g: Game, r: Index, original: Cell, owner: Side, bomb: Option<Bomb>): Game
  {
    var bombs := if bomb.Some? then g.bombs + [bomb.value] else g.bombs;
    g.(st := Restore(g.st, r, original, owner), bombs := bombs)
  }

  /** Capture j of a list of valid captures is a valid capture, and trying it gives the board
      back. */
  lemma CaptureTurn(g: Game, depth: nat, options: seq<int>, j: nat, alpha: int, beta: int, maximizing: bool)
    requires 0 < depth && j < |options|
    requires forall k :: 0 <= k < |options| ==> 0 <= options[k] < NumCells
    ensures Consistent(g.st) && Removable(options, g.st.cells, Mover(maximizing)) ==>
      IsValidRemoval(g.st.cells, options[j], Mover(maximizing))
    ensures PoolsNonNegative(g.st) ==> TryCapture(g, depth, options[j], alpha, beta, maximizing).1.st == g.st
    decreases depth, 0, |options| - j
  {
  }

  /** The computer's capture loop from option j on, all captures searched with the same window. A
      capture replaces the best only on strict improvement; there is no cut-off inside this loop.
      Over a list of valid captures the state comes back, the value is a possible score once one
      capture has been tried, and the capture picked is one of the list. */
  function MaxCaptureLoop(g: Game, depth: nat, options: seq<int>, j: nat, alpha: int, beta: int,
                          branchEval: int, bestRemove: Option<int>): (r: BranchResult)
    requires 0 < depth && j <= |options|
    requires forall k :: 0 <= k < |options| ==> 0 <= options[k] < NumCells
    ensures PoolsNonNegative(g.st) ==> Restored(g, r.after)
    ensures (Consistent(g.st) && Removable(options, g.st.cells, Mover(true)) &&
             (Bounded(branchEval) || (j < |options| && branchEval == Worst(true)))) ==> Bounded(r.value)
    ensures (Consistent(g.st) && Removable(options, g.st.cells, Mover(true)) &&
             (bestRemove.Some? || (j < |options| && branchEval == Worst(true)))) ==> r.remove.Some?
    ensures (bestRemove.Some? ==> bestRemove.value in options) ==> (r.remove.Some? ==> r.remove.value in options)
    ensures (PoolsNonNegative(g.st) && Window(alpha, beta) &&
             FailSoft(alpha, beta, branchEval, CaptureValue(g.st, depth, options, j, true))) ==>
      FailSoft(alpha, beta, r.value, CaptureValue(g.st, depth, options, |options|, true))
    decreases depth, 0, |options| - j + 1
  {
    if j == |options| then BranchResult(branchEval, bestRemove, g)
    else
      var t := TryCapture(g, depth, options[j], alpha, beta, true);
      var newEval := Improve(true, branchEval, t.0);
      var newRemove := if Better(true, t.0, branchEval) then Some(options[j]) else bestRemove;
      ImproveBounded(true, branchEval, t.0);
      ImproveFailSoft(true, alpha, beta, branchEval, CaptureValue(g.st, depth, options, j, true),
                      t.0, Minimax(Capture(g.st, options[j], Opponent(Mover(true))), Deeper(depth), false));
      ConsistentPools(g.st);
      CaptureTurn(g, depth, options, j, alpha, beta, true);
      MaxCaptureLoop(t.1, depth, options, j + 1, alpha, beta, newEval, newRemove)
  }

  /** One turn of the computer's capture loop, step by step. */
  lemma MaxCaptureStep(g: Game, depth: nat, options: seq<int>, j: nat, alpha: int, beta: int,
                       branchEval: int, bestRemove: Option<int>)
    requires 0 < depth && j < |options|
    requires forall k :: 0 <= k < |options| ==> 0 <= options[k] < NumCells
    ensures var t := TryCapture(g, depth, options[j], alpha, beta, true);
      MaxCaptureLoop(g, depth, options, j, alpha, beta, branchEval, bestRemove) ==
      MaxCaptureLoop(t.1, depth, options, j + 1, alpha, beta, if t.0 > branchEval then t.0 else branchEval,
                     if t.0 > branchEval then Some(options[j]) else bestRemove)
  {
  }

  /** The player's capture loop, the mirror image. */
  function MinCaptureLoop(g: Game, depth: nat, options: seq<int>, j: nat, alpha: int, beta: int,
                          branchEval: int, bestRemove: Option<int>): (r: BranchResult)
    requires 0 < depth && j <= |options|
    requires forall k :: 0 <= k < |options| ==> 0 <= options[k] < NumCells
    ensures PoolsNonNegative(g.st) ==> Restored(g, r.after)
    ensures (Consistent(g.st) && Removable(options, g.st.cells, Mover(false)) &&
             (Bounded(branchEval) || (j < |options| && branchEval == Worst(false)))) ==> Bounded(r.value)
    ensures (Consistent(g.st) && Removable(options, g.st.cells, Mover(false)) &&
             (bestRemove.Some? || (j < |options| && branchEval == Worst(false)))) ==> r.remove.Some?
    ensures (bestRemove.Some? ==> bestRemove.value in options) ==> (r.remove.Some? ==> r.remove.value in options)
    ensures (PoolsNonNegative(g.st) && Window(alpha, beta) &&
             FailSoft(alpha, beta, branchEval, CaptureValue(g.st, depth, options, j, false))) ==>
      FailSoft(alpha, beta, r.value, CaptureValue(g.st, depth, options, |options|, false))
    decreases depth, 0, |options| - j + 1
  {
    if j == |options| then BranchResult(branchEval, bestRemove, g)
    else
      var t := TryCapture(g, depth, options[j], alpha, beta, false);
      var newEval := Improve(false, branchEval, t.0);
      var newRemove := if Better(false, t.0, branchEval) then Some(options[j]) else bestRemove;
      ImproveBounded(false, branchEval, t.0);
      ImproveFailSoft(false, alpha, beta, branchEval, CaptureValue(g.st, depth, options, j, false),
                      t.0, Minimax(Capture(g.st, options[j], Opponent(Mover(false))), Deeper(depth), true));
      ConsistentPools(g.st);
      CaptureTurn(g, depth, options, j, alpha, beta, false);
      MinCaptureLoop(t.1, depth, options, j + 1, alpha, beta, newEval, newRemove)
  }

  /** One turn of the player's capture loop, step by step. */
  lemma MinCaptureStep(g: Game, depth: nat, options: seq<int>, j: nat, alpha: int, beta: int,
                       branchEval: int, bestRemove: Option<int>)
    requires 0 < depth && j < |options|
    requires forall k :: 0 <= k < |options| ==> 0 <= options[k] < NumCells
    ensures var t := TryCapture(g, depth, options[j], alpha, beta, false);
      MinCaptureLoop(g, depth, options, j, alpha, beta, branchEval, bestRemove) ==
      MinCaptureLoop(t.1, depth, options, j + 1, alpha, beta, if t.0 < branchEval then t.0 else branchEval,
                     if t.0 < branchEval then Some(options[j]) else bestRemove)
  {
  }

  // ---------------------------------------------------------------------------
  // Which capture the capture loops keep

  /** A capture worth o is bounded by the best so far e: no more than the larger of alpha and e
      (maximizer), or no less than the smaller of beta and e (minimizer), as long as e has not
      left the window on the far side. */
  predicate TriedBound(maximizing: bool, alpha: int, beta: int, e: int, o: int)
  {
    if maximizing then e < beta ==> o <= Max(alpha, e)
    else alpha < e ==> Min(beta, e) <= o
  }

  /** Every capture tried so far, the first j of vals, is bounded by the best so far. */
  predicate TriedBounded(vals: seq<int>, j: nat, alpha: int, beta: int, e: int, maximizing: bool)
    requires j <= |vals|
  {
    forall k :: 0 <= k < j ==> TriedBound(maximizing, alpha, beta, e, vals[k])
  }

  /** An improvement of the best so far keeps an earlier capture bounded. */
  lemma TriedBoundKept(maximizing: bool, alpha: int, beta: int, e: int, t: int, o: int)
    requires TriedBound(maximizing, alpha, beta, e, o)
    ensures TriedBound(maximizing, alpha, beta, Improve(maximizing, e, t), o)
  {
  }

  /** The capture just tried, whose search returned t for a true value m, is bounded too. */
  lemma TriedBoundNew(maximizing: bool, alpha: int, beta: int, e: int, t: int, m: int)
    requires alpha < beta && FailSoft(alpha, beta, t, m)
    ensures TriedBound(maximizing, alpha, beta, Improve(maximizing, e, t), m)
  {
  }

  /** A value inside the window that improves on the best so far is strictly better than every
      capture bounded by it. */
  lemma TriedBoundBeaten(maximizing: bool, alpha: int, beta: int, e: int, t: int, o: int)
    requires TriedBound(maximizing, alpha, beta, e, o)
    requires alpha < t < beta && Better(maximizing, t, e)
    ensures Better(maximizing, t, o)
  {
  }

  /** One capture of either capture loop, capture j worth vals[j] and searched to t, keeps the
      tried captures bounded by the new best so far. */
  lemma CaptureStepBounded(vals: seq<int>, j: nat, alpha: int, beta: int, e: int, t: int, maximizing: bool)
    requires j < |vals| && Window(alpha, beta)
    requires FailSoft(alpha, beta, t, vals[j])
    requires TriedBounded(vals, j, alpha, beta, e, maximizing)
    ensures TriedBounded(vals, j + 1, alpha, beta, Improve(maximizing, e, t), maximizing)
  {
    forall k | 0 <= k < j + 1
      ensures TriedBound(maximizing, alpha, beta, Improve(maximizing, e, t), vals[k])
    {
      if k < j {
        TriedBoundKept(maximizing, alpha, beta, e, t, vals[k]);
      } else {
        TriedBoundNew(maximizing, alpha, beta, e, t, vals[k]);
      }
    }
  }

  /** One capture of either capture loop keeps, within the window, the capture kept the first best
      one. */
  lemma CaptureStepFirstBest(vals: seq<int>, options: seq<int>, j: nat, alpha: int, beta: int,
                             e: int, remove: Option<int>, t: int, maximizing: bool)
    requires |vals| == |options| && j < |options| && Window(alpha, beta)
    requires FailSoft(alpha, beta, t, vals[j])
    requires TriedBounded(vals, j, alpha, beta, e, maximizing)
    requires alpha < e < beta ==> FirstBest(vals, options, j, e, remove, maximizing)
    ensures var e' := Improve(maximizing, e, t);
      alpha < e' < beta ==>
        FirstBest(vals, options, j + 1, e', if Better(maximizing, t, e) then Some(options[j]) else remove, maximizing)
  {
    var e' := Improve(maximizing, e, t);
    if alpha < e' < beta {
      if Better(maximizing, t, e) {
        forall k | 0 <= k < j
          ensures Better(maximizing, e', vals[k])
        {
          TriedBoundBeaten(maximizing, alpha, beta, e, t, vals[k]);
        }
        assert vals[j] == e';
      } else {
        var c :| 0 <= c < j && remove == Some(options[c]) && vals[c] == e &&
          forall k :: 0 <= k < c ==> Better(maximizing, e, vals[k]);
        assert 0 <= c < j + 1;
      }
    }
  }

  /** Within the window, the computer's capture loop keeps the first capture whose true value is
      the loop's value: every earlier capture is worth strictly less. */
  lemma {:induction false} MaxCaptureFirstBest(g: Game, depth: nat, options: seq<int>, j: nat, alpha: int, beta: int,
                                               branchEval: int, bestRemove: Option<int>)
    requires 0 < depth && j <= |options|
    requires forall k :: 0 <= k < |options| ==> 0 <= options[k] < NumCells
    requires PoolsNonNegative(g.st) && Window(alpha, beta)
    requires TriedBounded(Outcomes(g.st, depth, options, true), j, alpha, beta, branchEval, true)
    requires alpha < branchEval < beta ==> FirstBestCapture(g.st, depth, options, j, branchEval, bestRemove, true)
    ensures var r := MaxCaptureLoop(g, depth, options, j, alpha, beta, branchEval, bestRemove);
      alpha < r.value < beta ==> FirstBestCapture(g.st, depth, options, |options|, r.value, r.remove, true)
    decreases |options| - j
  {
    if j < |options| {
      var t := TryCapture(g, depth, options[j], alpha, beta, true);
      var vals := Outcomes(g.st, depth, options, true);
      MaxCaptureStep(g, depth, options, j, alpha, beta, branchEval, bestRemove);
      CaptureStepBounded(vals, j, alpha, beta, branchEval, t.0, true);
      CaptureStepFirstBest(vals, options, j, alpha, beta, branchEval, bestRemove, t.0, true);
      MaxCaptureFirstBest(t.1, depth, options, j + 1, alpha, beta, Improve(true, branchEval, t.0),
                          if Better(true, t.0, branchEval) then Some(options[j]) else bestRemove);
    }
  }

  /** The player's capture loop, the mirror image: the first capture worth the loop's value, every
      earlier one worth strictly more. */
  lemma {:induction false} MinCaptureFirstBest(g: Game, depth: nat, options: seq<int>, j: nat, alpha: int, beta: int,
                                               branchEval: int, bestRemove: Option<int>)
    requires 0 < depth && j <= |options|
    requires forall k :: 0 <= k < |options| ==> 0 <= options[k] < NumCells
    requires PoolsNonNegative(g.st) && Window(alpha, beta)
    requires TriedBounded(Outcomes(g.st, depth, options, false), j, alpha, beta, branchEval, false)
    requires alpha < branchEval < beta ==> FirstBestCapture(g.st, depth, options, j, branchEval, bestRemove, false)
    ensures var r := MinCaptureLoop(g, depth, options, j, alpha, beta, branchEval, bestRemove);
      alpha < r.value < beta ==> FirstBestCapture(g.st, depth, options, |options|, r.value, r.remove, false)
    decreases |options| - j
  {
    if j < |options| {
      var t := TryCapture(g, depth, options[j], alpha, beta, false);
      var vals := Outcomes(g.st, depth, options, false);
      MinCaptureStep(g, depth, options, j, alpha, beta, branchEval, bestRemove);
      CaptureStepBounded(vals, j, alpha, beta, branchEval, t.0, false);
      CaptureStepFirstBest(vals, options, j, alpha, beta, branchEval, bestRemove, t.0, false);
      MinCaptureFirstBest(t.1, depth, options, j + 1, alpha, beta, Improve(false, branchEval, t.0),
                          if Better(false, t.0, branchEval) then Some(options[j]) else bestRemove);
    }
  }

  // ---------------------------------------------------------------------------
  // Which action the move loops return

  /** The capture an action carries, if any, is the first best of the captures its move allows,
      and is worth v. */
  predicate CaptureAttains(st: State, depth: nat, a: Action, v: int, maximizing: bool)
    requires 0 < depth
  {
    var made := MakeMove(st, a.move, Mover(maximizing));
    var options := RemovalOptions(made.0.cells, Mover(maximizing), 0);
    RemovalOptionsValid(made.0.cells, Mover(maximizing));
    a.remove.Some? ==> FirstBestCapture(made.0, depth, options, |options|, v, a.remove, maximizing)
  }

  /** From move i on, the action `best` is the first whose move is worth v: its move is worth v,
      every move before it (from i) is worth strictly less for the side choosing, and its capture
      is the first best one. */
  predicate FirstBestMove(st: State, depth: nat, moves: seq<Move>, i: nat, v: int, best: Option<Action>, maximizing: bool)
    requires 0 < depth && i <= |moves|
  {
    best.Some? && CaptureAttains(st, depth, best.value, v, maximizing) &&
    exists c :: i <= c < |moves| && best.value.move == moves[c] && MoveValue(st, depth, moves[c], maximizing) == v &&
      forall k :: i <= k < c ==> Better(maximizing, v, MoveValue(st, depth, moves[k], maximizing))
  }

  /** Within its window, a branch's capture is the first best capture after the move. */
  lemma BranchAttains(g: Game, depth: nat, m: Move, alpha: int, beta: int, maximizing: bool)
    requires 0 < depth && PoolsNonNegative(g.st) && m in ValidMoves(g.st, Mover(maximizing)) && Window(alpha, beta)
    ensures var br := Branch(g, depth, m, alpha, beta, maximizing);
      alpha < br.value < beta ==> CaptureAttains(g.st, depth, Action(m, br.remove), br.value, maximizing)
  {
    var side := Mover(maximizing);
    ValidMovesAreLegal(g.st, side, m);
    var played := Play(g, m, side);
    PlayRestorable(g, m, side);
    var options := RemovalOptions(played.0.st.cells, side, 0);
    ReplySteps(played.0, played.1, depth, alpha, beta, maximizing);
    if played.1 && options != [] {
      RemovalOptionsValid(played.0.st.cells, side);
      if maximizing {
        MaxCaptureFirstBest(played.0, depth, options, 0, alpha, beta, Worst(true), None);
      } else {
        MinCaptureFirstBest(played.0, depth, options, 0, alpha, beta, Worst(false), None);
      }
    }
  }

  /** One turn of either move loop that goes on to the next move: if the rest of the loop keeps
      the best so far exactly when it finds nothing better, and returns the first best of the
      remaining moves within its narrowed window, then the whole loop does so from move i. */
  lemma MoveStepFirstBest(st: State, depth: nat, moves: seq<Move>, i: nat, alpha: int, beta: int,
                          bestEval: int, best: Option<Action>, value: int, remove: Option<int>,
                          restValue: int, restBest: Option<Action>, maximizing: bool)
    requires 0 < depth && i < |moves|
    requires Window(alpha, beta) && Settled(maximizing, alpha, beta, bestEval)
    requires FailSoft(alpha, beta, value, MoveValue(st, depth, moves[i], maximizing))
    requires alpha < value < beta ==> CaptureAttains(st, depth, Action(moves[i], remove), value, maximizing)
    requires var e := Improve(maximizing, bestEval, value);
      var next := if Better(maximizing, value, bestEval) then Some(Action(moves[i], remove)) else best;
      Raise(maximizing, alpha, e) < Lower(maximizing, beta, e) && Dominates(maximizing, restValue, e) &&
      (restValue == e ==> restBest == next) &&
      (Raise(maximizing, alpha, e) < restValue < Lower(maximizing, beta, e) ==>
        FirstBestMove(st, depth, moves, i + 1, restValue, restBest, maximizing))
    ensures restValue == bestEval ==> restBest == best
    ensures alpha < restValue < beta ==> FirstBestMove(st, depth, moves, i, restValue, restBest, maximizing)
  {
    var e := Improve(maximizing, bestEval, value);
    var mv := MoveValue(st, depth, moves[i], maximizing);
    StepOrder(maximizing, alpha, beta, bestEval, value, mv, restValue);
    if alpha < restValue < beta {
      if restValue == e && Better(maximizing, value, bestEval) {
        assert FirstBestMove(st, depth, moves, i, restValue, restBest, maximizing) by {
          assert i <= i < |moves| && restBest.value.move == moves[i];
        }
      } else {
        var c :| i + 1 <= c < |moves| && restBest.value.move == moves[c] && MoveValue(st, depth, moves[c], maximizing) == restValue &&
          forall k :: i + 1 <= k < c ==> Better(maximizing, restValue, MoveValue(st, depth, moves[k], maximizing));
        assert i <= c < |moves|;
      }
    }
  }

  /** The values in one turn of a move loop that goes on: the loop's final value equals the best
      so far only if this move did not improve it; a final value within the window comes either
      from this move, whose value is then exact, or from a later move inside the narrowed window,
      strictly better than this one. */
  lemma StepOrder(maximizing: bool, alpha: int, beta: int, bestEval: int, value: int, mv: int, restValue: int)
    requires Window(alpha, beta) && Settled(maximizing, alpha, beta, bestEval) && FailSoft(alpha, beta, value, mv)
    requires var e := Improve(maximizing, bestEval, value);
      Raise(maximizing, alpha, e) < Lower(maximizing, beta, e) && Dominates(maximizing, restValue, e)
    ensures var e := Improve(maximizing, bestEval, value);
      restValue == bestEval ==> !Better(maximizing, value, bestEval) && restValue == e
    ensures var e := Improve(maximizing, bestEval, value);
      alpha < restValue < beta && restValue == e && Better(maximizing, value, bestEval) ==> mv == value
    ensures var e := Improve(maximizing, bestEval, value);
      alpha < restValue < beta && !(restValue == e && Better(maximizing, value, bestEval)) ==>
        Raise(maximizing, alpha, e) < restValue < Lower(maximizing, beta, e) && Better(maximizing, restValue, mv)
  {
  }

  /** The computer's move loop returns the first best move: within its window, the action it
      returns is the first of moves[i..] whose move is worth the loop's value, every move before
      it worth strictly less, with the first best capture; and it keeps the best so far exactly
      when its value does not change. */
  lemma {:induction false} MaxLoopFirstBest(g: Game, depth: nat, moves: seq<Move>, i: nat, alpha: int, beta: int,
                                            bestEval: int, best: Option<Action>)
    requires 0 < depth && i <= |moves|
    requires PoolsNonNegative(g.st) && Listed(moves, ValidMoves(g.st, Mover(true)))
    requires Window(alpha, beta) && Settled(true, alpha, beta, bestEval)
    ensures var r := MaxLoop(g, depth, moves, i, alpha, beta, bestEval, best);
      (r.value == bestEval ==> r.best == best) &&
      (alpha < r.value < beta ==> FirstBestMove(g.st, depth, moves, i, r.value, r.best, true))
    decreases |moves| - i
  {
    if i < |moves| {
      var br := Branch(g, depth, moves[i], alpha, beta, true);
      MaxLoopStep(g, depth, moves, i, alpha, beta, bestEval, best);
      BranchAttains(g, depth, moves[i], alpha, beta, true);
      var e := Improve(true, bestEval, br.value);
      var next := if Better(true, br.value, bestEval) then Some(Action(moves[i], br.remove)) else best;
      if Max(alpha, e) < beta {
        LoopNarrow(true, alpha, beta, bestEval, br.value);
        var rest := MaxLoop(br.after, depth, moves, i + 1, Max(alpha, e), beta, e, next);
        MaxLoopFirstBest(br.after, depth, moves, i + 1, Max(alpha, e), beta, e, next);
        MoveStepFirstBest(g.st, depth, moves, i, alpha, beta, bestEval, best, br.value, br.remove,
                          rest.value, rest.best, true);
      }
    }
  }

  /** The player's move loop, the mirror image: the first move worth the loop's value, every move
      before it worth strictly more. */
  lemma {:induction false} MinLoopFirstBest(g: Game, depth: nat, moves: seq<Move>, i: nat, alpha: int, beta: int,
                                            bestEval: int, best: Option<Action>)
    requires 0 < depth && i <= |moves|
    requires PoolsNonNegative(g.st) && Listed(moves, ValidMoves(g.st, Mover(false)))
    requires Window(alpha, beta) && Settled(false, alpha, beta, bestEval)
    ensures var r := MinLoop(g, depth, moves, i, alpha, beta, bestEval, best);
      (r.value == bestEval ==> r.best == best) &&
      (alpha < r.value < beta ==> FirstBestMove(g.st, depth, moves, i, r.value, r.best, false))
    decreases |moves| - i
  {
    if i < |moves| {
      var br := Branch(g, depth, moves[i], alpha, beta, false);
      MinLoopStep(g, depth, moves, i, alpha, beta, bestEval, best);
      BranchAttains(g, depth, moves[i], alpha, beta, false);
      var e := Improve(false, bestEval, br.value);
      var next := if Better(false, br.value, bestEval) then Some(Action(moves[i], br.remove)) else best;
      if alpha < Min(beta, e) {
        LoopNarrow(false, alpha, beta, bestEval, br.value);
        var rest := MinLoop(br.after, depth, moves, i + 1, alpha, Min(beta, e), e, next);
        MinLoopFirstBest(br.after, depth, moves, i + 1, alpha, Min(beta, e), e, next);
        MoveStepFirstBest(g.st, depth, moves, i, alpha, beta, bestEval, best, br.value, br.remove,
                          rest.value, rest.best, false);
      }
    }
  }

  /** The computer's move loop stops once beta <= alpha: when move i closes the window, the result
      does not depend on the moves after it. */
  lemma MaxLoopCutoff(g: Game, depth: nat, moves: seq<Move>, other: seq<Move>, i: nat, alpha: int, beta: int,
                      bestEval: int, best: Option<Action>)
    requires 0 < depth && i < |moves| && i < |other| && other[i] == moves[i]
    requires beta <= Max(alpha, Improve(true, bestEval, Branch(g, depth, moves[i], alpha, beta, true).value))
    ensures MaxLoop(g, depth, moves, i, alpha, beta, bestEval, best) == MaxLoop(g, depth, other, i, alpha, beta, bestEval, best)
    ensures MaxLoop(g, depth, moves, i, alpha, beta, bestEval, best) == MaxLoop(g, depth, moves[..i + 1], i, alpha, beta, bestEval, best)
  {
    MaxLoopStep(g, depth, moves, i, alpha, beta, bestEval, best);
    MaxLoopStep(g, depth, other, i, alpha, beta, bestEval, best);
    MaxLoopStep(g, depth, moves[..i + 1], i, alpha, beta, bestEval, best);
  }

  /** The player's move loop stops once beta <= alpha, the mirror image. */
  lemma MinLoopCutoff(g: Game, depth: nat, moves: seq<Move>, other: seq<Move>, i: nat, alpha: int, beta: int,
                      bestEval: int, best: Option<Action>)
    requires 0 < depth && i < |moves| && i < |other| && other[i] == moves[i]
    requires Min(beta, Improve(false, bestEval, Branch(g, depth, moves[i], alpha, beta, false).value)) <= alpha
    ensures MinLoop(g, depth, moves, i, alpha, beta, bestEval, best) == MinLoop(g, depth, other, i, alpha, beta, bestEval, best)
    ensures MinLoop(g, depth, moves, i, alpha, beta, bestEval, best) == MinLoop(g, depth, moves[..i + 1], i, alpha, beta, bestEval, best)
  {
    MinLoopStep(g, depth, moves, i, alpha, beta, bestEval, best);
    MinLoopStep(g, depth, other, i, alpha, beta, bestEval, best);
    MinLoopStep(g, depth, moves[..i + 1], i, alpha, beta, bestEval, best);
  }

  // ---------------------------------------------------------------------------
  // What the search gives back

  /** Both piece pools are non-negative: every listed move is then one make_move carries out. */
  predicate PoolsNonNegative(st: State)
  {
    st.ToPlace(1) >= 0 && st.ToPlace(2) >= 0
  }

  /** A capture choice fits a move made with result `made` (the new state and whether it closed a
      mill): there is one exactly when the move closed a mill and some capture is valid, and it is
      a valid capture. */
  predicate CaptureFits(made: (State, bool), remove: Option<int>, p: Side)
  {
    (remove.Some? ==> made.1 && IsValidRemoval(made.0.cells, remove.value, p)) &&
    (remove.None? && made.1 ==> RemovalOptions(made.0.cells, p, 0) == [])
  }

  /** An action the mover may play: a valid move, with the capture that fits it. */
  predicate Chosen(st: State, a: Action, p: Side)
  {
    a.move in ValidMoves(st, p) && CaptureFits(MakeMove(st, a.move, p), a.remove, p)
  }

  /** Every point of the list can be captured by p. */
  predicate Removable(options: seq<int>, cells: Cells, p: Side)
  {
    forall k :: 0 <= k < |options| ==> IsValidRemoval(cells, options[k], p)
  }

  /** Every move of the list is one of `valid`. */
  predicate Listed(moves: seq<Move>, valid: seq<Move>)
  {
    forall k :: 0 <= k < |moves| ==> moves[k] in valid
  }

  /** What make/unmake restores: board and counters exactly, the bombs up to their positions and
      order, and the bomb numbering and flags. (Last-move records and the winner are not restored.) */
  predicate Restored(g: Game, h: Game)
  {
    h.st == g.st && Tags(h.bombs) == Tags(g.bombs) && h.nextBombId == g.nextBombId &&
    h.playerBombAvailable == g.playerBombAvailable && h.aiBombAvailable == g.aiBombAvailable
  }

  /** The reordered move list holds only moves of the original list, and as many. */
  lemma OrderWithin(cells: Cells, ms: seq<Move>, p: Side)
    requires OnBoardMoves(ms)
    ensures Listed(Order(cells, ms, p), ms)
    ensures |Order(cells, ms, p)| == |ms|
  {
    OrderMeaning(cells, ms, p);
    assert |multiset(Order(cells, ms, p))| == |multiset(ms)|;
    forall k | 0 <= k < |Order(cells, ms, p)|
      ensures Order(cells, ms, p)[k] in ms
    {
      OrderMembership(cells, ms, p, Order(cells, ms, p)[k]);
    }
  }

  /** A listed move, made on a position with non-negative pools, keeps the pools non-negative and
      the bombs' tags, and the record it leaves undoes it exactly. */
  lemma PlayRestorable(g: Game, m: Move, p: Side)
    ensures PoolsNonNegative(g.st) && m in ValidMoves(g.st, p) ==>
      var after := Play(g, m, p).0;
      PoolsNonNegative(after.st) && Tags(after.bombs) == Tags(g.bombs) &&
      after.nextBombId == g.nextBombId &&
      after.playerBombAvailable == g.playerBombAvailable && after.aiBombAvailable == g.aiBombAvailable &&
      LastMove(after, p) == Some(Details(m.to, m.from, None)) &&
      UndoMove(after.st, LastMove(after, p), p) == g.st
  {
    if PoolsNonNegative(g.st) && m in ValidMoves(g.st, p) {
      ValidMovesAreLegal(g.st, p, m);
      MakeUndoRoundTrip(g.st, m, p);
      if m.from != PlaceOrigin {
        RelocateMeaning(g.bombs, m.from, m.to, p);
      }
    }
  }

  /** Trying the moves in heuristic order finds the same best value as trying them as listed. */
  lemma OrderSameMoves(st: State, depth: nat, moves: seq<Move>, maximizing: bool)
    requires 0 < depth && OnBoardMoves(moves)
    ensures BestOf(st, depth, Order(st.cells, moves, Mover(maximizing)), 0, maximizing) == BestOf(st, depth, moves, 0, maximizing)
  {
    var ordered := Order(st.cells, moves, Mover(maximizing));
    forall m | m in ordered || m in moves
      ensures m in ordered <==> m in moves
    {
      OrderMembership(st.cells, moves, Mover(maximizing), m);
    }
    BestOfSameMoves(st, depth, ordered, moves, maximizing);
  }

  /** A reachable position scores within the bounds. */
  lemma ScoreBounded(st: State)
    ensures Consistent(st) ==> Bounded(Evaluate(st))
  {
    if Consistent(st) {
      EvaluateBounded(st);
    }
  }

  /** The capture list holds only valid captures. */
  lemma RemovalOptionsValid(cells: Cells, p: Side)
    ensures Removable(RemovalOptions(cells, p, 0), cells, p)
  {
    var options := RemovalOptions(cells, p, 0);
    forall k | 0 <= k < |options|
      ensures IsValidRemoval(cells, options[k], p)
    {
      RemovalOptionsExact(cells, p, 0, options[k]);
    }
  }

  /** A reachable position has non-negative pools. */
  lemma ConsistentPools(st: State)
    ensures Consistent(st) ==> PoolsNonNegative(st)
  {
  }

  /** A capture picked from the capture list is a valid one. */
  lemma CaptureListed(cells: Cells, p: Side, remove: Option<int>)
    ensures remove.Some? && remove.value in RemovalOptions(cells, p, 0) ==> IsValidRemoval(cells, remove.value, p)
  {
    if remove.Some? {
      RemovalOptionsExact(cells, p, 0, remove.value);
    }
  }

  /** A valid capture made by hand is perform_removal, so it keeps the position reachable. */
  lemma CaptureConsistent(st: State, r: Index, remover: Side)
    ensures Consistent(st) && IsValidRemoval(st.cells, r, remover) ==> Consistent(Capture(st, r, Opponent(remover)))
  {
    if Consistent(st) && IsValidRemoval(st.cells, r, remover) {
      CapturePreservesConsistency(st, r, remover);
    }
  }

  /** A valid move keeps the position reachable, and the engine's move is make_move's. */
  lemma PlayConsistent(g: Game, m: Move, p: Side)
    ensures Consistent(g.st) && m in ValidMoves(g.st, p) ==>
      Consistent(Play(g, m, p).0.st) && (Play(g, m, p).0.st, Play(g, m, p).1) == MakeMove(g.st, m, p)
  {
    if Consistent(g.st) && m in ValidMoves(g.st, p) {
      MovePreservesConsistency(g.st, m, p);
      ValidMovesAreLegal(g.st, p, m);
    }
  }

  /** A hand-made capture leaves the pools as they were. */
  lemma CapturePools(st: State, r: Index, owner: Side)
    ensures PoolsNonNegative(st) ==> PoolsNonNegative(Capture(st, r, owner))
  {
  }

  /** Putting back what a capture took gives the state back, whatever the search did in between
      as long as it restored what it found. */
  lemma PutBackRestores(g: Game, r: Index, owner: Side, after: Game)
    ensures Restored(g.(st := Capture(g.st, r, owner), bombs := Detach(g.bombs, r).0), after) ==>
      Restored(g, PutBack(after, r, g.st.cells[r], owner, Detach(g.bombs, r).1))
  {
    if Restored(g.(st := Capture(g.st, r, owner), bombs := Detach(g.bombs, r).0), after) {
      DetachReattach(g.bombs, r, after.bombs);
      CaptureRestore(g.st, r, owner);
    }
  }

  /** Putting back by hand what the search captured by hand gives the state back. */
  lemma CaptureRestore(st: State, r: Index, owner: Side)
    ensures Restore(Capture(st, r, owner), r, st.cells[r], owner) == st
  {
    assert st.cells[r := 0][r := st.cells[r]] == st.cells;
  }

  // ---------------------------------------------------------------------------
  // The root call

  /** With the widest window, as ai_move calls it, pruning loses nothing: the value is exactly the
      minimax value of the position over the same game tree. */
  lemma RootSearchExact(g: Game, depth: nat, maximizing: bool)
    requires Consistent(g.st)
    ensures Search(g, depth, -Inf, Inf, maximizing).value == Minimax(g.st, depth, maximizing)
  {
    ConsistentPools(g.st);
  }

  /** The action ai_move plays: when the root search returns one, its move is the first move of
      the ordered valid moves worth the minimax value of the position, every move before it is
      worth strictly less for the mover, and its capture, if any, is the first best of the
      captures the move allows. */
  lemma RootSearchChoice(g: Game, depth: nat, maximizing: bool)
    requires Consistent(g.st)
    ensures var s := Search(g, depth, -Inf, Inf, maximizing);
      var side := Mover(maximizing);
      s.best.Some? ==>
        0 < depth && FirstBestMove(g.st, depth, OrderedMoves(g.st, side), 0, Minimax(g.st, depth, maximizing), s.best, maximizing)
  {
    ConsistentPools(g.st);
    RootSearchExact(g, depth, maximizing);
    SearchSteps(g, depth, -Inf, Inf, maximizing);
    var s := Search(g, depth, -Inf, Inf, maximizing);
    if s.best.Some? {
      var side := Mover(maximizing);
      var h := CheckGameOver(g).1;
      ValidMovesOnBoard(g.st, side);
      ExpandSteps(h, depth, -Inf, Inf, maximizing);
      OrderWithin(g.st.cells, ValidMoves(g.st, side), side);
      var ordered := OrderedMoves(g.st, side);
      if maximizing {
        MaxLoopFirstBest(h, depth, ordered, 0, -Inf, Inf, Worst(true), None);
      } else {
        MinLoopFirstBest(h, depth, ordered, 0, -Inf, Inf, Worst(false), None);
      }
    }
  }
}
