/** The computer's static evaluation of a position, from its own point of view: positive is good
    for the computer (side 2), negative good for the player (side 1). */
module Evaluation {
  import opened Topology
  import opened Rules

  /** Score of a position the computer has won, and (negated) of one the player has won. */
  const WinScore: int := 10000

  /** How many of the first j points of `mill` hold v. */
  function Occupied(cells: Cells, mill: seq<int>, v: Cell, j: nat): (n: nat)
    requires j <= |mill|
    requires forall i :: 0 <= i < |mill| ==> 0 <= mill[i] < NumCells
    ensures n <= j
  {
    if j == 0 then 0
    else Occupied(cells, mill, v, j - 1) + (if cells[mill[j - 1]] == v then 1 else 0)
  }

  /** The four kinds of line the evaluation counts: full mills and lines of two with the third
      point empty ("almost mills"), for each side. */
  datatype MillTally = MillTally(aiMills: int, playerMills: int, aiAlmost: int, playerAlmost: int)

  /** How one line counts, given how many of its three points are empty, the player's, the computer's.
      The tests are made in this order and at most one kind is counted. */
  function Classify(empty: int, player: int, ai: int): (t: MillTally)
    ensures t.aiMills + t.playerMills + t.aiAlmost + t.playerAlmost <= 1
    ensures 0 <= t.aiMills && 0 <= t.playerMills && 0 <= t.aiAlmost && 0 <= t.playerAlmost
  {
    if ai == 3 then MillTally(1, 0, 0, 0)
    else if player == 3 then MillTally(0, 1, 0, 0)
    else if ai == 2 && empty == 1 then MillTally(0, 0, 1, 0)
    else if player == 2 && empty == 1 then MillTally(0, 0, 0, 1)
    else MillTally(0, 0, 0, 0)
  }

  function AddTally(a: MillTally, b: MillTally): MillTally
  {
    MillTally(a.aiMills + b.aiMills, a.playerMills + b.playerMills, a.aiAlmost + b.aiAlmost, a.playerAlmost + b.playerAlmost)
  }

  /** How mill line k counts on this board. */
  function LineTally(cells: Cells, k: int): MillTally
    requires 0 <= k < |Mills|
  {
    MillsWellFormed();
    Classify(Occupied(cells, Mills[k], 0, 3), Occupied(cells, Mills[k], 1, 3), Occupied(cells, Mills[k], 2, 3))
  }

  /** The counts over the first n mill lines. */
  function TallyTo(cells: Cells, n: nat): MillTally
    requires n <= |Mills|
  {
    if n == 0 then MillTally(0, 0, 0, 0) else AddTally(TallyTo(cells, n - 1), LineTally(cells, n - 1))
  }

  /** Each count lies between 0 and the number of lines examined, and so do their sums per side. */
  lemma {:induction false} TallyBounds(cells: Cells, n: nat)
    requires n <= |Mills|
    ensures var t := TallyTo(cells, n);
      0 <= t.aiMills && 0 <= t.playerMills && 0 <= t.aiAlmost && 0 <= t.playerAlmost &&
      t.aiMills + t.playerMills + t.aiAlmost + t.playerAlmost <= n
  {
    if n > 0 {
      TallyBounds(cells, n - 1);
    }
  }

  /** evaluate_board, branch for branch. A finished game scores exactly +10000 for a computer win
      and -10000 for a player win; otherwise the weighted sum of Positional, overridden for a side
      that has lost. */
  function Evaluate(st: State): (score: int)
  {
    var over := GameOver(st);
    if over.0 then
      (if over.1 == AiWon then WinScore else if over.1 == PlayerWon then -WinScore else 0)
    else if st.aiToPlace == 0 && st.aiOnBoard < 3 then -WinScore
    else if st.playerToPlace == 0 && st.playerOnBoard < 3 then WinScore
    else if st.playerToPlace == 0 && ValidMoves(st, 1) == [] then WinScore
    else if st.aiToPlace == 0 && ValidMoves(st, 2) == [] then -WinScore
    else Positional(st, TallyTo(st.cells, |Mills|), |ValidMoves(st, 2)|, |ValidMoves(st, 1)|)
  }

  /** The weighted sum evaluate_board computes for a position nobody has lost yet, given the mill
      counts and the two move-list lengths: pieces 200, mills 300, pool 5; once either side has
      finished placing also almost-mills 50, mobility 5, and the blocked terms; in the flying phase
      mills a further 100, almost-mills 25, and +100 / -150 for the side alone able to fly. */
  function Positional(st: State, t: MillTally, aiMobility: int, playerMobility: int): int
  {
    var aiDonePlacing := st.aiToPlace == 0;
    var playerDonePlacing := st.playerToPlace == 0;
    var aiCanFly := aiDonePlacing && st.aiOnBoard <= 3;
    var playerCanFly := playerDonePlacing && st.playerOnBoard <= 3;
    var millDiff := t.aiMills - t.playerMills;
    var almostMillDiff := t.aiAlmost - t.playerAlmost;
    var aiBlocked := if aiDonePlacing && aiMobility == 0 then 1 else 0;
    var playerBlocked := if playerDonePlacing && playerMobility == 0 then 1 else 0;
    var base := (st.aiOnBoard - st.playerOnBoard) * 200 + millDiff * 300 + (st.aiToPlace - st.playerToPlace) * 5;
    var endgame := if aiDonePlacing || playerDonePlacing then
        almostMillDiff * 50 + (aiMobility - playerMobility) * 5 + playerBlocked * 2000 - aiBlocked * 4000
      else 0;
    var flying := if aiCanFly || playerCanFly then
        millDiff * 100 + almostMillDiff * 25 +
        (if aiCanFly && !playerCanFly then 100 else if playerCanFly && !aiCanFly then -150 else 0)
      else 0;
    base + endgame + flying
  }

  /** With at most nine pieces a side, sixteen lines and 576 moves a side, the weighted sum stays within 20000. */
  lemma PositionalBounded(st: State, t: MillTally, aiMobility: int, playerMobility: int)
    requires 0 <= st.aiOnBoard <= 9 && 0 <= st.playerOnBoard <= 9 && 0 <= st.aiToPlace <= 9 && 0 <= st.playerToPlace <= 9
    requires 0 <= t.aiMills && 0 <= t.playerMills && 0 <= t.aiAlmost && 0 <= t.playerAlmost
    requires t.aiMills + t.playerMills + t.aiAlmost + t.playerAlmost <= 16
    requires 0 <= aiMobility <= 576 && 0 <= playerMobility <= 576
    ensures -20000 <= Positional(st, t, aiMobility, playerMobility) <= 20000
  {
  }

  /** A finished game scores exactly the winner's value: +10000 when the computer won,
      -10000 when the player won. */
  lemma TerminalScore(st: State)
    ensures GameOver(st).0 && GameOver(st).1 == AiWon ==> Evaluate(st) == WinScore
    ensures GameOver(st).0 && GameOver(st).1 == PlayerWon ==> Evaluate(st) == -WinScore
    ensures GameOver(st).0 ==> Evaluate(st) == WinScore || Evaluate(st) == -WinScore
  {
  }

  /** On any position the game can reach, the score stays within 20000 either way. */
  lemma EvaluateBounded(st: State)
    requires Consistent(st)
    ensures -20000 <= Evaluate(st) <= 20000
  {
    if !GameOver(st).0 {
      NoLoserScoresPositional(st);
      assert 0 <= st.aiOnBoard <= 9 && 0 <= st.playerOnBoard <= 9 && 0 <= st.aiToPlace <= 9 && 0 <= st.playerToPlace <= 9;
      var t := TallyTo(st.cells, |Mills|);
      TallyBounds(st.cells, |Mills|);
      ValidMovesBound(st, 1);
      ValidMovesBound(st, 2);
      var aiMobility, playerMobility := |ValidMoves(st, 2)|, |ValidMoves(st, 1)|;
      PositionalBounded(st, t, aiMobility, playerMobility);
    }
  }

  /** On a position where nobody has lost, the final overrides of evaluate_board never fire: the
      score is the weighted sum, and its blocked terms are zero. */
  lemma NoLoserScoresPositional(st: State)
    requires !GameOver(st).0
    ensures Evaluate(st) == Positional(st, TallyTo(st.cells, |Mills|), |ValidMoves(st, 2)|, |ValidMoves(st, 1)|)
    ensures st.aiToPlace == 0 ==> ValidMoves(st, 2) != []
    ensures st.playerToPlace == 0 ==> ValidMoves(st, 1) != []
  {
  }
}
