# Nine Men's Morris engine, modelled and verified in Dafny

This project models the game engine of a terminal Nine Men's Morris game with time bombs: the
`NineMensMorris` class of `main.py`. The board has 24 points. Two sides take part: the
human player (side 1) and the computer (side 2). Each side places nine pieces, then slides them
along the lines of the board, and flies them anywhere once it is down to three. A side that
closes a mill (three in a row on one of the sixteen lines) captures an opponent piece. A piece
in a mill can be captured only when every piece of that side is in one.

Each side may once arm a time bomb on one of its own pieces. The bomb follows that piece when it
slides. After three of its owner's turns it blows up, and every piece next to it goes back to
its owner's pool of pieces to place. The computer picks its move with a depth-limited alpha-beta
search. The search makes each move and each capture on the live engine, recurses, and then takes
it back.

The project has these parts:

- `topology.dfy` (`Topology`): the adjacency table and the mill lines. Lemmas prove that
  adjacency is symmetric and that exactly two mills pass through every point.
- `rules.dfy` (`Rules`): the pure rules over a `State` value. The state holds the 24 cells and
  four counters: pieces to place and pieces on the board, for each side. The rules cover
  placement, movement and flying, mills, captures, the move list, making and undoing a move, the
  end of the game and the phase. `Consistent` is the invariant the game keeps: each side's
  on-board counter equals its pieces on the board, and no side has more than nine pieces in play.
- `bombs.dfy` (`Bombs`): the bomb list. It covers relocation, disarming, ticking, blasts,
  detonation rounds, and which bomb facts survive a capture that is later put back.
- `evaluation.dfy` (`Evaluation`): `evaluate_board`. That is the mill tally, the weighted
  positional score and the terminal scores, with bounds on all of them.
- `engine.dfy` (`Engine`): the whole engine as a `Game` value. Each engine operation is a
  function on that value: play, capture, undo, the game-over check, the score (which records the
  winner), arming a bomb, a detonation, and a bomb turn.
- `gametree.dfy` (`GameTree`): a plain minimax reference, `Minimax`. It has no window, no
  pruning and no state changes. The module also holds the window bookkeeping the search uses.
- `search.dfy` (`Search`): `alpha_beta_search` and its move ordering, as functions on `Game`.
  Five facts are proved about the search:
  - The engine comes back restored.
  - Scores stay bounded.
  - The search returns an action exactly when the game is not over, the depth is positive and
    the mover can move, and that action is a valid move with a capture that fits it.
  - The value is a fail-soft bound of `Minimax`, and is exactly `Minimax` under the infinite
    window `ai_move` uses.
  - At the root, the action is the first of the ordered moves whose value is the minimax
    value; every move before it is strictly worse for the mover. Its capture is the first best
    capture of that move. Once beta <= alpha, the moves after the cut cannot change the result.
- `policy.dfy` (`Policy`): `ai_move`. It covers the bomb decision, the search depth, the
  fallback capture and the whole computer turn.
- `morris.dfy` (`Morris`): the class `NineMensMorris` with the engine's fields. Its methods
  update those fields in place with the same loops and branches as the source. Each method is
  proved to leave exactly the state the `Engine`/`Search`/`Policy` function prescribes. Pure
  queries return exactly what the matching function computes.

Where the game's intended rules (bombs detonate in id order, a bomb already removed by an earlier blast does not go off) and the code disagree, the model follows the code:

- A detonation round sets off the queued bombs in the order of the bomb list, not sorted by id.
- A queued bomb that an earlier blast in the same round already disarmed still goes off where
  it was queued. The code loops over the queue without checking whether the bomb is still on
  the board, so chain suppression does not hold for bombs that were already queued.
  `Bombs.DetonateAll` states this.
- Undoing a slide does not move a relocated bomb back. `Engine.UndoLeavesBombBehind` states this.

## Model

| member | source | states |
|---|---|---|
| Topology.Neighbours | main.py:26-32 | every point has two to four neighbours, all on the board and none the point itself |
| Topology.AdjacencySymmetric | main.py:26-32 | q is adjacent to p exactly when p is adjacent to q |
| Topology.MillsWellFormed | main.py:33-38 | there are sixteen mill lines, each of three distinct on-board points |
| Topology.MillsThroughExact | main.py:33-38 | the list of mill lines through p holds exactly the lines that contain p |
| Topology.TwoMillsThroughEachPoint | main.py:33-38 | every point lies on exactly two mill lines |
| Rules.Opponent | main.py:169 | the opponent is the other side, 3 minus the side |
| Rules.PiecesExact | main.py:188-189 | the index list of a cell value holds exactly the points with that value |
| Rules.PiecesIncreasing | main.py:188-189 | that list is in increasing board order |
| Rules.Pieces | main.py:188-189 | every listed point holds the value and lies on the board; meaning in `Rules.PiecesExact` and `Rules.PiecesIncreasing` |
| Rules.ScanMills | main.py:154-158 | the loop over the mill lines finds a line through the point full of p iff one exists |
| Rules.FormsMill | main.py:152-158 | no contract; meaning in `Rules.FormsMillMeaning` |
| Rules.IsValidPlace | main.py:139-140 | no contract; a placement is valid iff the point is on the board and empty; the move list agrees with it by `Rules.ValidMovesAgree` |
| Rules.IsValidMove | main.py:142-150 | no contract; the move list agrees with it by `Rules.ValidMovesAgree`, `Rules.FlyingAgrees` and `Rules.SlidingAgrees` |
| Rules.Legal | main.py:205-218 | no contract; the guard of `make_move`'s two branches; `Rules.ValidMovesAreLegal` ties it to the move list |
| Rules.FormsMillMeaning | main.py:152-166 | `forms_mill` (and its twin `is_in_mill`) holds iff the point is on the board, holds p, and some mill line containing it is full of p |
| Rules.AllInMills | main.py:174-178 | the loop's verdict is true iff every piece of the side (from the start index on) is in a mill |
| Rules.IsValidRemoval | main.py:168-179 | no contract; meaning in `Rules.IsValidRemovalMeaning` |
| Rules.RemovalOptions | main.py:356 | every listed point is on the board; meaning in `Rules.RemovalOptionsExact` |
| Rules.IsValidRemovalMeaning | main.py:168-179 | a capture is valid iff the point holds an opponent piece that is outside every mill, or all the opponent's pieces are in mills |
| Rules.RemovalOptionsExact | main.py:356 | the capture list holds exactly the points where a capture is valid |
| Rules.TargetsMembership | main.py:186 | a placement list holds exactly the moves from the given origin to the listed points |
| Rules.Targets | main.py:186 | one move per listed point, in list order, each from the given origin |
| Rules.FlyMoves | main.py:190-193 | no contract; meaning in `Rules.FlyMovesMembership` |
| Rules.EmptyAmong | main.py:196-197 | the empty neighbours are at most the neighbours; meaning in `Rules.StepMovesMembership` |
| Rules.StepMoves | main.py:194-198 | at most four moves per piece; meaning in `Rules.StepMovesMembership` |
| Rules.FlyMovesMembership | main.py:190-193 | the flying list holds exactly the pairs of an own piece and an empty point |
| Rules.StepMovesMembership | main.py:194-198 | the sliding list holds exactly the moves of an own piece to an adjacent empty point |
| Rules.ValidMovesAgree | main.py:139-150 | while a side has pieces to place, its move list is exactly the valid placements and no move is valid; once it has placed them all, a move is listed iff `is_valid_move` accepts it |
| Rules.FlyingAgrees | main.py:187-193 | with three or fewer pieces and none to place, a move is listed iff it is valid |
| Rules.SlidingAgrees | main.py:194-198 | with more than three pieces and none to place, a move is listed iff it is valid |
| Rules.ValidMovesAreLegal | main.py:181-199 | every listed move is legal for the mover, and a placement is listed only while pieces remain to place |
| Rules.ValidMovesBound | main.py:181-199 | no move list is longer than 576 (24 by 24) |
| Rules.ValidMoves | main.py:181-199 | no contract; meaning in `Rules.ValidMovesAgree`, `Rules.ValidMovesAreLegal` and `Rules.ValidMovesBound` |
| Rules.Apply | main.py:205-229 | the target holds p's piece; a slide empties its origin and leaves the counters alone; a placement moves one of p's pieces from the pool to the board; the opponent's counters never change |
| Rules.ApplyFrame | main.py:205-229 | no point other than the target and the origin changes |
| Rules.MakeMove | main.py:201-229 | an illegal move changes nothing and reports no mill; a legal one puts the piece on the target and reports a mill iff the target now forms one |
| Rules.PerformRemoval | main.py:231-260 | a valid capture empties an opponent point and lowers only the opponent's on-board count; an invalid one changes nothing |
| Rules.Capture | main.py:362-363 | no contract; the capture branch of `Rules.PerformRemoval`, and undone by `Search.CaptureRestore` |
| Rules.UndoMove | main.py:262-282 | no contract; meaning in `Rules.MakeUndoRoundTrip` and `Rules.MakeCaptureUndoRoundTrip` |
| Rules.PutBackCaptured | main.py:266-270 | no contract; meaning in `Rules.MakeCaptureUndoRoundTrip` |
| Rules.TakeBack | main.py:271-282 | no contract; meaning in `Rules.MakeUndoRoundTrip` |
| Rules.MakeUndoRoundTrip | main.py:262-282 | undoing a legal move with its own details restores the state exactly |
| Rules.MakeCaptureUndoRoundTrip | main.py:262-282 | undoing a legal move and the valid capture that followed restores the state exactly |
| Rules.GameOver | main.py:607-621 | the game is over iff a winner is named |
| Rules.GameOverMeaning | main.py:607-621 | the game is over iff a side has lost (it has placed all its pieces and has fewer than three or cannot move); the computer is named winner exactly under the checks made first |
| Rules.Lost | main.py:608-619 | no contract; meaning in `Rules.GameOverMeaning` |
| Rules.Phase | main.py:88-99 | the phase is 1 while either side places, 3 iff both have placed and one may fly, else 2 |
| Rules.MovePreservesConsistency | main.py:201-229 | a listed move keeps the invariant and the mover's pieces in play |
| Rules.CapturePreservesConsistency | main.py:231-260 | a valid capture keeps the invariant and removes exactly one opponent piece from play |
| Bombs.FirstOwnAt | main.py:223-226 | the search finds the first bomb of p on the point, or the end of the list |
| Bombs.FirstAt | main.py:235-241 | the index found is the first bomb on the point from the start index, or the end of the list |
| Bombs.FirstEqual | main.py:474-476 | the index found is the first bomb equal to the given one, or the end of the list |
| Bombs.Without | main.py:237 | the list loses exactly the one entry, by multiset |
| Bombs.Bombed | main.py:528 | no contract; meaning in `Bombs.BombedMeaning` |
| Bombs.BombedMeaning | main.py:528 | a point is bombed iff some bomb on the list sits there |
| Bombs.Detach | main.py:235-241 | when no bomb is on the point the list is unchanged; otherwise one bomb on that point is taken out and the rest of the list keeps its contents |
| Bombs.RemoveValue | main.py:474-476 | removing a bomb on the list takes out exactly one copy of it; removing one not on the list changes nothing |
| Bombs.RelocateMeaning | main.py:222-226 | only the first bomb of p on the origin moves, to the target; every other entry and every id, owner and timer is unchanged |
| Bombs.Relocate | main.py:223-226 | the list keeps its length; meaning in `Bombs.RelocateMeaning` |
| Bombs.DetachReattach | main.py:365-372 | re-appending a bomb disarmed during the search restores the list's ids, owners and timers |
| Bombs.TickMeaning | main.py:458-460 | ticking lowers exactly the timers of p's bombs by one and leaves everything else alone |
| Bombs.TickOne | main.py:459-460 | no contract; meaning in `Bombs.TickMeaning` |
| Bombs.Tick | main.py:458-460 | the list keeps its length; meaning in `Bombs.TickMeaning` |
| Bombs.DueMembership | main.py:461-462 | a bomb is queued iff it is p's and its timer has run out |
| Bombs.Due | main.py:461-462 | the queue is no longer than the list; meaning in `Bombs.DueMembership` and `Bombs.DueCount` |
| Bombs.BlastPoint | main.py:490-513 | a blast empties the point; a piece there goes back to its owner's pool, and no other counter changes; an empty point keeps the list as it is, an occupied one loses the first bomb on it (as `Bombs.Detach`) |
| Bombs.DetonateMeaning | main.py:482-518 | a detonation empties every neighbour of the bomb and leaves every other point, the bomb's own included, as it was; it keeps the invariant, and returns blasted pieces to their owners' pools; the list only loses bombs (multiset inclusion), and every bomb not on an occupied neighbour keeps its multiplicity |
| Bombs.BombRound | main.py:453-480 | a round reports a detonation iff some ticked bomb of p has run out; otherwise only the timers change; a round that fires only takes bombs off the ticked list, and no queued bomb is left on it |
| Bombs.BombRoundFires | main.py:458-465 | a round fires iff p owned a bomb whose timer was at most 1 before ticking |
| Bombs.BlastFrom | main.py:490-513 | no contract; meaning in `Bombs.BlastFromCells`, `Bombs.BlastFromKeeps`, `Bombs.BlastFromShrinks` and `Bombs.BlastFromBombs` |
| Bombs.BlastFromCells | main.py:490-513 | the blast empties exactly the listed points and leaves every other point as it was |
| Bombs.BlastFromKeeps | main.py:490-513 | the blast keeps the invariant and each side's pieces in play, and never lengthens the list |
| Bombs.BlastPointKeeps | main.py:502-513 | one blasted point keeps the invariant and each side's pieces in play |
| Bombs.Detonate | main.py:482-518 | no contract; meaning in `Bombs.DetonateMeaning` |
| Bombs.DetonateAll | main.py:470-472 | no contract; meaning in `Bombs.DetonateAllKeeps`, `Bombs.DetonateAllShrinks` and `Bombs.DetonateAllBombs` |
| Bombs.DetonateAllKeeps | main.py:470-472 | the queued detonations keep the invariant and each side's pieces in play |
| Bombs.RemoveAll | main.py:474-476 | no contract; meaning in `Bombs.RemoveAllShrinks` and `Bombs.RemoveAllCount` |
| Bombs.BlastFromShrinks | main.py:490-500 | the blasts over a list of points only take bombs off the list |
| Bombs.BlastFromBombs | main.py:490-500 | a bomb not sitting on an occupied point among those blasted keeps its multiplicity |
| Bombs.BlastPointBombs | main.py:491-500 | one blast only takes bombs off the list, and none that is not on the point while it holds a piece |
| Bombs.DetonateAllShrinks | main.py:470-472 | the queued detonations only take bombs off the list |
| Bombs.DetonateAllBombs | main.py:470-472 | a bomb next to none of the queued bombs' points keeps its multiplicity through all of their detonations |
| Bombs.RemoveAllShrinks | main.py:474-476 | taking the queue off the list never adds a bomb |
| Bombs.RemoveAllCount | main.py:474-476 | each queued copy of a bomb removes one copy while one is left; a bomb queued at least as often as listed is gone |
| Bombs.DueCount | main.py:458-462 | the queue holds each run-out bomb of p exactly as often as the list, and nothing else |
| Bombs.RemoveDue | main.py:474-476 | after the removals no queued bomb is left, and nothing was added to the ticked list |
| Bombs.BombRoundKeepsDistant | main.py:453-480 | in a round, a bomb that was not queued and sits next to no queued bomb stays on the list as often as after the tick |
| Bombs.BombRoundKeeps | main.py:453-480 | a bomb round keeps the invariant and each side's pieces in play |
| Evaluation.Occupied | main.py:304-305 | the count of a value on a mill line never exceeds the points counted |
| Evaluation.Classify | main.py:306-309 | a line counts toward at most one of the four tallies |
| Evaluation.LineTally | main.py:304-309 | no contract; meaning in `Evaluation.Classify` |
| Evaluation.AddTally | main.py:306-309 | no contract; adds two tallies field by field |
| Evaluation.TallyTo | main.py:303-309 | no contract; meaning in `Evaluation.TallyBounds` and `Morris.NineMensMorris.CountMills` |
| Evaluation.TallyBounds | main.py:303-309 | the four tallies are non-negative and their sum is at most the number of lines |
| Evaluation.PositionalBounded | main.py:317-330 | the weighted sum stays within 20000 either way on a reachable position |
| Evaluation.Positional | main.py:317-330 | no contract; meaning in `Evaluation.PositionalBounded` |
| Evaluation.TerminalScore | main.py:284-288 | a finished game scores 10000 when the computer won and -10000 when the player won |
| Evaluation.NoLoserScoresPositional | main.py:312-335 | when the game is not over, the score is the weighted sum and a side that has placed all its pieces has a move |
| Evaluation.EvaluateBounded | main.py:284-335 | on a reachable position every score lies within 20000 either way |
| Evaluation.Evaluate | main.py:284-335 | no contract; meaning in `Evaluation.TerminalScore`, `Evaluation.NoLoserScoresPositional` and `Evaluation.EvaluateBounded` |
| Engine.Initial | main.py:7-46 | the new game keeps the invariant, with nine pieces to place each and no bombs |
| Engine.EmptyBoard | main.py:8 | every point of the new board is empty |
| Engine.WithLastMove | main.py:210-222 | recording a side's last move changes only that record |
| Engine.LastMove | main.py:352 | no contract; the computer's record `last_ai_move` (main.py:352) or the player's `last_player_move` (main.py:389); `Engine.WithLastMove` states how it changes |
| Engine.Play | main.py:201-229 | an illegal move changes nothing; a legal one makes the move, records it as the mover's last move, moves the mover's bomb along on a slide, and keeps everything else |
| Engine.Remove | main.py:231-260 | a capture succeeds iff it is valid; a successful one removes the piece and one bomb on it and adds the point to the remover's last move when one is recorded |
| Engine.Undo | main.py:262-282 | undo changes only the board and counters |
| Engine.CheckGameOver | main.py:607-621 | the check is true iff a side has lost, and records the winner |
| Engine.Score | main.py:284-289 | evaluation records the winner and scores a won game at 10000 for the computer and -10000 for the player |
| Engine.ArmBomb | main.py:438-451 | arming appends a bomb with the next id and a timer of 3, uses up that side's bomb, and records it as the side's last move |
| Engine.Explode | main.py:482-518 | a detonation touches only the board, the counters and the bomb list |
| Engine.ExplodeKeeps | main.py:482-518 | a detonation keeps the invariant and each side's pieces in play, and only takes bombs off the list (multiset inclusion) |
| Engine.BombTurn | main.py:453-480 | a bomb turn touches only the board, the counters and the bomb list |
| Engine.BombTurnMeaning | main.py:453-480 | a bomb turn fires iff the side owned a bomb about to run out, and it keeps the invariant and the pieces in play |
| Engine.PlayUndoRoundTrip | main.py:262-282 | undoing a legal move with its recorded details restores board and counters, and the bomb list's ids, owners and timers |
| Engine.UndoLeavesBombBehind | main.py:262-282 | undoing a slide puts the piece back but leaves the moved bomb on the target point |
| GameTree.BestOfMeaning | main.py:380-381 | the best move value dominates every move's value and is one of them (or the starting sentinel) |
| GameTree.Outcomes | main.py:361-375 | one value per capture, in list order: the minimax value one level down after that capture |
| GameTree.BestOfSameMoves | main.py:347 | the best value depends only on which moves are listed, not their order |
| Search.CreatesMillPredicts | main.py:423-436 | the ordering heuristic says a legal move closes a mill iff making it reports a mill |
| Search.CreatesMill | main.py:423-436 | no contract; meaning in `Search.CreatesMillPredicts` |
| Search.Filter | main.py:347 | every kept move is on the board and in the group asked for, and none is added; meaning in `Search.FilterSplits` and `Search.FilterKeepsOrder` |
| Search.Order | main.py:347 | no contract; meaning in `Search.OrderMeaning`, `Search.OrderMembership` and `Search.OrderSameMoves` |
| Search.FilterSplits | main.py:347 | the mill-closing and the other moves together are the original moves, with multiplicity |
| Search.OrderMeaning | main.py:347 | the ordered list is a permutation of the move list, with every mill-closing move ahead of every other |
| Search.FilterKeepsOrder | main.py:347 | each group of the ordering keeps the order of the move list (`sorted` is stable): it is a subsequence of it |
| Search.OrderMembership | main.py:347 | a move is in the ordered list iff it is in the move list |
| Search.OrderSameMoves | main.py:347 | ordering does not change the minimax value |
| Search.Search | main.py:337-421 | the engine comes back restored; scores are bounded; an action comes back iff the game is not over, depth is positive and the mover can move, and it is a valid move with a capture that fits it; the value is a fail-soft bound of minimax for the window (which action: `Search.RootSearchChoice`, `Search.MaxLoopFirstBest`) |
| Search.SearchSteps | main.py:337-347 | a search that returns an action went past the game-over, depth and no-move checks into the move loops |
| Search.ExpandSteps | main.py:347-350 | the loops run over the ordered valid moves from the worst value and no action |
| Search.Expand | main.py:342-347 | searching the ordered moves gives a fail-soft bound of the best move value, restores the engine, and returns a chosen action |
| Search.MaxLoop | main.py:348-384 | the maximiser's loop restores the engine, keeps its best value bounded, and bounds the best value of the remaining moves fail-soft (which action and the cut-off: `Search.MaxLoopFirstBest`, `Search.MaxLoopCutoff`) |
| Search.MaxLoopStep | main.py:380-383 | one turn of the loop: the best is replaced only on strict improvement, alpha is raised to it, and the loop stops once beta <= alpha |
| Search.MaxLoopFirstBest | main.py:350-384 | within the window the action returned is the first of the moves worth the loop's value, every earlier move worth strictly less, with the first best capture; the best so far is kept exactly when the value stays |
| Search.MaxLoopCutoff | main.py:383 | once a move closes the window the result does not depend on the moves after it: any list agreeing up to that move, the prefix included, gives the same result |
| Search.MinLoop | main.py:385-421 | the minimiser's loop does the same with the window mirrored (which action and the cut-off: `Search.MinLoopFirstBest`, `Search.MinLoopCutoff`) |
| Search.MinLoopStep | main.py:417-420 | one turn of the loop: the best is replaced only on strict improvement, beta is lowered to it, and the loop stops once beta <= alpha |
| Search.MinLoopFirstBest | main.py:387-421 | within the window the action returned is the first of the moves worth the loop's value, every earlier move worth strictly more, with the first best capture |
| Search.MinLoopCutoff | main.py:420 | once a move closes the window the result does not depend on the moves after it |
| Search.MoveStepFirstBest | main.py:380-383 | one turn of either loop that goes on keeps the first-best property from the rest of the loop |
| Search.StepOrder | main.py:380-383 | the values of one turn: a value inside the window comes from this move, exactly, or from a later one strictly better |
| Search.BranchAttains | main.py:351-379 | within the window a branch's capture is the first best capture after the move |
| Search.Branch | main.py:351-379 | one move's branch restores the engine, and its value bounds the move's minimax value fail-soft with a capture that fits the move |
| Search.Reply | main.py:355-378 | after a move, the search goes down one level, or tries each capture when a mill closed and captures exist |
| Search.Captures | main.py:356-375 | the capture loop restores the engine and bounds the best capture's value fail-soft |
| Search.TryCapture | main.py:362-373 | trying a capture restores the engine and bounds the value after that capture fail-soft |
| Search.MaxCaptureLoop | main.py:361-375 | the engine comes back restored, the value is bounded and a fail-soft bound of the best capture, and the capture kept is one of the options (which one: `Search.MaxCaptureFirstBest`) |
| Search.CaptureTurn | main.py:361-373 | each option is a valid capture, and trying it gives the board back |
| Search.MaxCaptureFirstBest | main.py:361-375 | within the window the capture kept is the first whose value is the loop's value, every earlier one worth strictly less |
| Search.MinCaptureLoop | main.py:398-412 | the same for the minimiser (which capture: `Search.MinCaptureFirstBest`) |
| Search.MinCaptureFirstBest | main.py:398-412 | within the window the capture kept is the first whose value is the loop's value, every earlier one worth strictly more |
| Search.CaptureStepBounded | main.py:374-375 | every capture tried stays bounded by the best so far |
| Search.CaptureStepFirstBest | main.py:374-375 | one capture keeps the capture kept the first best one within the window |
| Search.CaptureRestore | main.py:362-373 | putting the captured piece back restores the state |
| Search.PutBackRestores | main.py:365-373 | putting the piece and its disarmed bomb back restores what the capture changed |
| Search.PutBack | main.py:371-373 | no contract; meaning in `Search.PutBackRestores` |
| Search.PlayRestorable | main.py:351-379 | a listed move keeps the pools non-negative and the bomb tags, records its details, and undoing them restores the state |
| Search.RootSearchExact | main.py:563 | with the infinite window `ai_move` uses, the search value is exactly the minimax value |
| Search.RootSearchChoice | main.py:563 | the action the root search returns is the first of the ordered moves worth the minimax value, every earlier one strictly worse for the mover, and its capture is the first best of the move's captures |
| Policy.BombGuardSimplifies | main.py:521 | the computer considers a bomb iff it still has one, has a piece on the board, and has fewer than seven to place (the phase test adds nothing) |
| Policy.BombConsidered | main.py:521 | no contract; meaning in `Policy.BombGuardSimplifies` |
| Policy.OpponentHits | main.py:534-536 | no contract; computed by the loop in `Morris.NineMensMorris.NeighbourHits` |
| Policy.OwnHits | main.py:537-538 | no contract; computed by the loop in `Morris.NineMensMorris.NeighbourHits` |
| Policy.BombScore | main.py:540 | no contract; used by `Policy.ScanMeaning` and `Policy.BombTargetMeaning` |
| Policy.AcceptableMeansPositive | main.py:542-543 | a target passes the nested test iff it hits an opponent and its score is positive |
| Policy.Acceptable | main.py:542-543 | no contract; meaning in `Policy.AcceptableMeansPositive` |
| Policy.ScanStep | main.py:527-545 | no contract; one turn of the scan, meaning in `Policy.ScanMeaning` |
| Policy.BestMeaning | main.py:542-545 | the scan keeps the first strictly best score above -100, and nothing scanned beats it |
| Policy.ScanMeaning | main.py:525-546 | the scan finds nothing only when no owned point is a fit target; otherwise it finds an owned fit target with the top score, and no earlier fit target ties it |
| Policy.Scan | main.py:525-546 | the point found is none (-1) or on the board; meaning in `Policy.ScanMeaning` and `Policy.ScanOverPieces` |
| Policy.ScanOverPieces | main.py:525-546 | over the computer's pieces the scan finds an eligible point with the top score whenever one exists |
| Policy.BombTargetMeaning | main.py:520-553 | the computer arms a bomb iff it considers one and some point is eligible; it picks the first eligible point with the top score, which is at least 1 |
| Policy.BombTarget | main.py:520-553 | no contract; meaning in `Policy.BombTargetMeaning` |
| Policy.DepthPolicy | main.py:555-559 | the depth is 3 to 5: 5 iff at most six pieces are left or the game is flying, 3 iff more than ten are left and it is not |
| Policy.SearchDepth | main.py:555-559 | no contract; meaning in `Policy.DepthPolicy` |
| Policy.Removal | main.py:587-596 | the capture is a valid one, and there is none iff no capture is valid |
| Policy.Capturing | main.py:585-603 | no contract; meaning in `Policy.Removal` and `Policy.PlayActionMeaning` |
| Policy.PlayAction | main.py:565-603 | no contract; meaning in `Policy.PlayActionMeaning` |
| Policy.PlayActionMeaning | main.py:567-603 | a chosen action is played as chosen: the move, then its capture when it has one; the invariant is kept and the random choice plays no part |
| Policy.AiTurnPlaysChosen | main.py:555-605 | without a bomb, the computer plays the search's action, which exists iff the game is not over and it can move; otherwise the board stays as it was |
| Policy.AiTurnKeepsConsistent | main.py:520-605 | the computer's turn keeps the invariant, and the random choice never matters from a reachable position |
| Policy.AiTurn | main.py:520-605 | no contract; meaning in `Policy.AiTurnPlaysChosen` and `Policy.AiTurnKeepsConsistent` |
| Morris.NineMensMorris.constructor | main.py:7-46 | the new engine is the initial game |
| Morris.NineMensMorris.SetLastMove | main.py:210-222 | records one side's last move and nothing else |
| Morris.NineMensMorris.CheckMill | main.py:152-158 | returns exactly `forms_mill` |
| Morris.NineMensMorris.CheckRemoval | main.py:168-179 | returns exactly whether the capture is valid |
| Morris.NineMensMorris.GetValidMoves | main.py:181-199 | returns exactly the move list |
| Morris.NineMensMorris.FlyingMoves | main.py:190-193 | the nested loop builds every pair of an own piece and an empty point, in loop order |
| Morris.NineMensMorris.SlidingMoves | main.py:194-198 | the nested loop builds every slide to an adjacent empty point, in loop order |
| Morris.NineMensMorris.EmptyNeighbourMoves | main.py:196-198 | the inner loop builds the slides from one point |
| Morris.NineMensMorris.MakeMove | main.py:201-229 | the new engine state and the mill flag are those of `Engine.Play` |
| Morris.NineMensMorris.PlacePiece | main.py:206-213 | the placement branch of make_move: the piece goes down, one piece moves from the pool to the board, and the placement is recorded |
| Morris.NineMensMorris.ShiftPiece | main.py:218-226 | the movement branch: the origin is emptied, the target filled, the move recorded, and the mover's bomb relocated as `Bombs.Relocate` |
| Morris.NineMensMorris.RelocateBomb | main.py:223-226 | the break loop moves the bomb as `Bombs.Relocate` and changes nothing else |
| Morris.NineMensMorris.DetachBomb | main.py:235-241 | the break loop takes out the bomb `Bombs.Detach` names and returns it |
| Morris.NineMensMorris.PerformRemoval | main.py:231-260 | the new engine state and the result are those of `Engine.Remove` |
| Morris.NineMensMorris.UndoMove | main.py:262-282 | the new engine state is that of `Engine.Undo` |
| Morris.NineMensMorris.PutBackCaptured | main.py:266-270 | the first half of undo_move, as `Rules.PutBackCaptured` |
| Morris.NineMensMorris.TakeBack | main.py:271-282 | the second half of undo_move, as `Rules.TakeBack` |
| Morris.NineMensMorris.PlaceBomb | main.py:438-451 | the new engine state is that of `Engine.ArmBomb` |
| Morris.NineMensMorris.IsGameOver | main.py:607-621 | the result and recorded winner are those of `Engine.CheckGameOver` |
| Morris.NineMensMorris.BlastPoint | main.py:490-513 | one point of a blast, as `Bombs.BlastPoint` |
| Morris.NineMensMorris.DetonateBomb | main.py:482-518 | the new engine state is that of `Engine.Explode` |
| Morris.NineMensMorris.TickBombs | main.py:458-462 | the timers tick as `Bombs.Tick` and the queue is `Bombs.Due` |
| Morris.NineMensMorris.TickList | main.py:458-462 | the loop returns the ticked list `Bombs.Tick` and the queue `Bombs.Due` |
| Morris.NineMensMorris.DetonateQueue | main.py:470-472 | the queued bombs go off in order |
| Morris.NineMensMorris.RemoveQueue | main.py:474-476 | the queued bombs still on the list are taken off |
| Morris.NineMensMorris.HandleBombUpdatesAndDetonations | main.py:453-480 | the result and new state are those of `Engine.BombTurn` |
| Morris.NineMensMorris.CountMills | main.py:303-309 | the loop over the mill lines computes the tallies |
| Morris.NineMensMorris.LineCounts | main.py:304-305 | the counts of empty, player and computer points on one line |
| Morris.NineMensMorris.EvaluateBoard | main.py:284-335 | the score and recorded winner are those of `Engine.Score` |
| Morris.NineMensMorris.WeightedSum | main.py:317-330 | the score adds up the weighted terms |
| Morris.NineMensMorris.MoveCreatesMillHeuristic | main.py:423-436 | the probe leaves the engine unchanged and says whether the move would close a mill |
| Morris.NineMensMorris.OrderMoves | main.py:347 | leaves the engine unchanged and returns the mill-first stable ordering |
| Morris.NineMensMorris.AlphaBetaSearch | main.py:337-421 | the value, the action and the engine state left behind are those of `Search.Search` |
| Morris.NineMensMorris.MaxMoves | main.py:348-384 | the maximiser's loop, as `Search.MaxLoop` |
| Morris.NineMensMorris.MinMoves | main.py:385-421 | the minimiser's loop, as `Search.MinLoop` |
| Morris.NineMensMorris.TryMove | main.py:351-379 | one move's branch with its undo, as `Search.Branch` |
| Morris.NineMensMorris.ReplyToMove | main.py:355-378 | after a move, one level down or the capture loop, as `Search.Reply` |
| Morris.NineMensMorris.SearchReply | main.py:376-378 | the recursive call one level down for the other side, as `Search.Search` |
| Morris.NineMensMorris.SearchCaptures | main.py:356-375 | the capture list and the mover's capture loop, as `Search.Captures` |
| Morris.NineMensMorris.MaxCaptures | main.py:361-375 | the maximiser's capture loop, as `Search.MaxCaptureLoop` |
| Morris.NineMensMorris.MinCaptures | main.py:398-412 | the minimiser's capture loop, as `Search.MinCaptureLoop` |
| Morris.NineMensMorris.CaptureAndSearch | main.py:362-373 | capture by hand, search, put back, as `Search.TryCapture` |
| Morris.NineMensMorris.CaptureByHand | main.py:362-369 | the capture by hand: the point emptied, the count lowered and the first bomb there detached, as `Rules.Capture` and `Bombs.Detach` |
| Morris.NineMensMorris.SearchThenPutBack | main.py:370-373 | the search one level down, then the put-back, as `Search.Search` and `Search.PutBack` |
| Morris.NineMensMorris.PutBackByHand | main.py:371-373 | the bomb re-appended and the piece and count restored, as `Search.PutBack` |
| Morris.NineMensMorris.NeighbourHits | main.py:534-538 | counts the opponent and own neighbours of a point |
| Morris.NineMensMorris.ChooseBombTarget | main.py:521-547 | returns exactly the bomb decision `Policy.BombTarget` |
| Morris.NineMensMorris.ScanOwned | main.py:525-546 | the scan loop computes `Policy.Scan` |
| Morris.NineMensMorris.AiMove | main.py:520-605 | the new engine state is that of `Policy.AiTurn` |
| Morris.NineMensMorris.PlayBest | main.py:567-603 | plays the chosen action, as `Policy.PlayAction` |
| Morris.NineMensMorris.CaptureAfterMill | main.py:585-603 | the capture after a mill, as `Policy.Capturing` |

## Left out

- Screen output, `print`, `time.sleep`, `input` and the clock are not modelled. This covers
  `clear_screen`, `get_piece_symbol`, `display_board`, `format_move`, `get_coord_input` and the
  game loop `play_game`, all of which are outside the engine core.
- The interactive undo stack and `player_undos_left` are not modelled. They belong to the game
  loop, not the engine.
- `random.choice` is not modelled as randomness. It becomes a parameter `pick`, and the options
  list is indexed at `pick % |options|`. `Policy.AiTurnKeepsConsistent` proves that the choice
  never matters from a reachable position.
- The `phase` field is not stored. It is recomputed from the counters (`Rules.Phase`), as
  `display_board` does before every turn.
- `float('inf')` is not modelled as a float. It becomes `Inf = 1000000`, and every reachable
  score lies within 20000 either way.
- The winner string is not modelled as a string. It becomes the datatype `Winner`: `AiWon`,
  `PlayerWon` or `NoWinner`.
- The board list becomes a 24-element sequence field that the methods reassign one cell at a
  time. No other object holds the list, so aliasing is not modelled.
- The recovery branch of `ai_move` for a chosen action without a move (main.py:569-578) is not
  modelled. It cannot be reached: every action the search returns holds a move.
  `Policy.AiTurnPlaysChosen` states this.
- Python's negative list indices are not modelled. `move_creates_mill_heuristic` reads the board
  at the move's points unguarded, but it is only called on moves from `get_valid_moves`, whose
  points are all on the board.
- Morris.NineMensMorris.MoveCreatesMillHeuristic requires the move's points to be on the board,
  for the reason given above.
- Morris.NineMensMorris.OrderMoves requires on-board moves for the same reason.
- Search.Search does not state that the bomb list comes back restored entry by entry, because it
  does not. The search undoes moves with `undo_move`, which leaves a moved bomb on the target
  point, and it re-appends a disarmed bomb at the end of the list. What comes back is the board,
  the counters, the bomb flags, the next id, and the ids, owners and timers of the bombs (as a
  multiset).
- Search.Search also says nothing about the last-move records and the winner after the search.
  The search overwrites both, and `ai_move` does not read them afterwards.
- Engine.PlayUndoRoundTrip states restoration of the bomb list only as the multiset of ids,
  owners and timers, for the same reason.
- Engine.Undo does not undo a bomb placement (origin -2). `undo_move` skips that origin.
- Search.MaxLoopFirstBest and Search.MinLoopFirstBest name the action only when the loop's
  value lies strictly inside the window. A cut-off value is only a bound on the true best, so it
  cannot single out a move. At the root the window is infinite, so `Search.RootSearchChoice`
  holds for every action `ai_move` receives.
- Search.MaxCaptureFirstBest and Search.MinCaptureFirstBest hold within the window, for the same
  reason.
- `sorted(..., reverse=True)` on a boolean key is not modelled as a general sort. It becomes a
  stable partition: mill-closing moves first, each group in its original order. This matches
  Python's stable sort.
