/** The whole state of the engine as one value, and each of its operations as a function on that
    value: what a call changes in the board, the counters, the bomb list, the bomb flags, the
    last-move records and the recorded winner. */
module Engine {
  import opened Topology
  import opened Rules
  import opened Bombs
  import opened Evaluation

  /** Everything the engine keeps between calls (the screen phase label and the interactive
      undo stack aside). */
  datatype Game = Game(
    st: State,
    bombs: seq<Bomb>,
    nextBombId: int,
    playerBombAvailable: bool,
    aiBombAvailable: bool,
    lastPlayerMove: Option<Details>,
    lastAiMove: Option<Details>,
    winner: Winner)

  /** The engine as constructed: empty board, nine pieces to place each, both bombs available. */
  function Initial(): (g: Game)
    ensures Consistent(g.st)
    ensures g.st.ToPlace(1) == 9 && g.st.ToPlace(2) == 9 && g.bombs == []
  {
    Game(State(EmptyBoard(), 9, 9, 0, 0), [], 0, true, true, None, None, NoWinner)
  }

  /** The board as constructed: every point empty, so neither side has a piece on it. */
  function EmptyBoard(): (cells: Cells)
    ensures forall i :: 0 <= i < NumCells ==> cells[i] == 0
    ensures Count(cells, 1) == 0 && Count(cells, 2) == 0
  {
    var cells: Cells := seq(24, i => 0);
    EmptyBoardCounts(cells, 1, 0);
    EmptyBoardCounts(cells, 2, 0);
    cells
  }

  lemma {:induction false} EmptyBoardCounts(cells: Cells, v: Side, k: nat)
    requires k <= NumCells
    requires forall i :: 0 <= i < NumCells ==> cells[i] == 0
    ensures Pieces(cells, v, k) == []
    decreases NumCells - k
  {
    if k < NumCells {
      EmptyBoardCounts(cells, v, k + 1);
    }
  }

  function LastMove(g: Game, p: Side): Option<Details>
  {
    if p == 1 then g.lastPlayerMove else g.lastAiMove
  }

  function WithLastMove(g: Game, p: Side, d: Option<Details>): (r: Game)
    ensures LastMove(r, p) == d && LastMove(r, Opponent(p)) == LastMove(g, Opponent(p))
    ensures r.st == g.st && r.bombs == g.bombs && r.winner == g.winner && r.nextBombId == g.nextBombId
    ensures r.playerBombAvailable == g.playerBombAvailable && r.aiBombAvailable == g.aiBombAvailable
  {
    if p == 1 then g.(lastPlayerMove := d) else g.(lastAiMove := d)
  }

  /** make_move: a legal placement or movement is applied to board and counters, recorded as p's
      last move, and (for a movement) carries along the first of p's bombs on the origin; the
      result says whether the arriving piece completes a mill. Anything else changes nothing. */
  function Play(g: Game, m: Move, p: Side): (r: (Game, bool))
    ensures !Legal(g.st, m, p) ==> r == (g, false)
    ensures Legal(g.st, m, p) ==>
      r.0.st == MakeMove(g.st, m, p).0 && r.1 == MakeMove(g.st, m, p).1 &&
      LastMove(r.0, p) == Some(Details(m.to, m.from, None)) && LastMove(r.0, Opponent(p)) == LastMove(g, Opponent(p)) &&
      r.0.winner == g.winner && r.0.nextBombId == g.nextBombId &&
      r.0.playerBombAvailable == g.playerBombAvailable && r.0.aiBombAvailable == g.aiBombAvailable
    ensures Legal(g.st, m, p) && m.from == PlaceOrigin ==> r.0.bombs == g.bombs
    ensures Legal(g.st, m, p) && m.from != PlaceOrigin ==> 0 <= m.to < NumCells && r.0.bombs == Relocate(g.bombs, m.from, m.to, p)
  {
    if !Legal(g.st, m, p) then (g, false)
    else
      var r := MakeMove(g.st, m, p);
      var bombs := if m.from == PlaceOrigin then g.bombs else Relocate(g.bombs, m.from, m.to, p);
      (WithLastMove(g.(st := r.0, bombs := bombs), p, Some(Details(m.to, m.from, None))), r.1)
  }

  /** A placement make_move carries out, step by step: the piece down, the counters moved on,
      the record written, then the mill test on the new board. */
  lemma PlaceSteps(g: Game, m: Move, p: Side)
    requires m.from == PlaceOrigin && IsValidPlace(g.st, m.to)
    ensures Play(g, m, p) ==
      (WithLastMove(g.(st := g.st.(cells := g.st.cells[m.to := p]).WithCounters(p, g.st.ToPlace(p) - 1, g.st.OnBoard(p) + 1)),
                    p, Some(Details(m.to, m.from, None))),
       FormsMill(g.st.cells[m.to := p], m.to, p))
  {
  }

  /** A movement make_move carries out, step by step: the piece moved, the record written, the
      bomb carried along, then the mill test on the new board. */
  lemma ShiftSteps(g: Game, m: Move, p: Side)
    requires m.from != PlaceOrigin && IsValidMove(g.st, m.from, m.to, p)
    ensures Play(g, m, p) ==
      (WithLastMove(g.(st := g.st.(cells := g.st.cells[m.from := 0][m.to := p]), bombs := Relocate(g.bombs, m.from, m.to, p)),
                    p, Some(Details(m.to, m.from, None))),
       FormsMill(g.st.cells[m.from := 0][m.to := p], m.to, p))
  {
  }

  /** perform_removal: a valid capture empties the point, costs the opponent one piece on the
      board, disarms the first bomb on that point, and adds the point to the remover's last-move
      record when there is one. Anything else changes nothing. */
  function Remove(g: Game, pos: int, remover: Side): (r: (Game, bool))
    ensures r.1 <==> IsValidRemoval(g.st.cells, pos, remover)
    ensures !r.1 ==> r.0 == g
    ensures r.1 ==>
      r.0.st == PerformRemoval(g.st, pos, remover) && r.0.bombs == Detach(g.bombs, pos).0 &&
      LastMove(r.0, Opponent(remover)) == LastMove(g, Opponent(remover)) &&
      (LastMove(g, remover).None? ==> LastMove(r.0, remover).None?) &&
      (LastMove(g, remover).Some? ==>
        LastMove(r.0, remover) == Some(LastMove(g, remover).value.(removed := Some(pos)))) &&
      r.0.winner == g.winner && r.0.nextBombId == g.nextBombId &&
      r.0.playerBombAvailable == g.playerBombAvailable && r.0.aiBombAvailable == g.aiBombAvailable
  {
    if !IsValidRemoval(g.st.cells, pos, remover) then (g, false)
    else
      var g1 := g.(st := PerformRemoval(g.st, pos, remover), bombs := Detach(g.bombs, pos).0);
      match LastMove(g, remover)
      case None => (g1, true)
      case Some(d) => (WithLastMove(g1, remover, Some(Details(d.to, d.from, Some(pos)))), true)
  }

  /** A capture perform_removal carries out, step by step: the first bomb on the point detached,
      the piece taken off, then the remover's record noted when there is one. */
  lemma RemoveSteps(g: Game, pos: int, remover: Side)
    requires IsValidRemoval(g.st.cells, pos, remover)
    ensures 0 <= pos < NumCells
    ensures var g1 := g.(st := Capture(g.st, pos, Opponent(remover)), bombs := Detach(g.bombs, pos).0);
      Remove(g, pos, remover) ==
        (if LastMove(g, remover).None? then g1
         else WithLastMove(g1, remover, Some(LastMove(g, remover).value.(removed := Some(pos)))), true)
  {
  }

  /** undo_move: only board and counters change; bombs stay where they are. */
  function Undo(g: Game, details: Option<Details>, p: Side): (r: Game)
    ensures r.(st := g.st) == g
  {
    g.(st := UndoMove(g.st, details, p))
  }

  /** is_game_over: the verdict, recorded as the winner. */
  function CheckGameOver(g: Game): (r: (bool, Game))
    ensures r.0 <==> Lost(g.st, 1) || Lost(g.st, 2)
    ensures r.1 == g.(winner := GameOver(g.st).1)
  {
    GameOverMeaning(g.st);
    var v := GameOver(g.st);
    (v.0, g.(winner := v.1))
  }

  /** evaluate_board: the score, with the winner recorded by the game-over test it starts with. */
  function Score(g: Game): (r: (int, Game))
    ensures r.1 == g.(winner := GameOver(g.st).1)
    ensures GameOver(g.st).1 == AiWon ==> r.0 == WinScore
    ensures GameOver(g.st).1 == PlayerWon ==> r.0 == -WinScore
  {
    TerminalScore(g.st);
    (Evaluate(g.st), g.(winner := GameOver(g.st).1))
  }

  /** _place_bomb: the next bomb number, a bomb of p on pos with the initial timer at the end of the
      list, p's bomb used up, and the arming recorded as p's last move. */
  function ArmBomb(g: Game, p: Side, pos: Index): (r: Game)
    ensures r.nextBombId == g.nextBombId + 1
    ensures r.bombs == g.bombs + [Bomb(g.nextBombId + 1, p, pos, BombInitialTimer)]
    ensures (if p == 1 then r.playerBombAvailable else r.aiBombAvailable) == false
    ensures (if p == 1 then r.aiBombAvailable == g.aiBombAvailable else r.playerBombAvailable == g.playerBombAvailable)
    ensures LastMove(r, p) == Some(Details(pos, BombOrigin, None)) && LastMove(r, Opponent(p)) == LastMove(g, Opponent(p))
    ensures r.st == g.st && r.winner == g.winner
  {
    var id := g.nextBombId + 1;
    var g1 := g.(nextBombId := id, bombs := g.bombs + [Bomb(id, p, pos, BombInitialTimer)]);
    var g2 := if p == 1 then g1.(playerBombAvailable := false) else g1.(aiBombAvailable := false);
    WithLastMove(g2, p, Some(Details(pos, BombOrigin, None)))
  }

  /** _detonate_bomb on the engine. */
  function Explode(g: Game, b: Bomb): (r: Game)
    ensures r.nextBombId == g.nextBombId && r.winner == g.winner
    ensures r.lastPlayerMove == g.lastPlayerMove && r.lastAiMove == g.lastAiMove
    ensures r.playerBombAvailable == g.playerBombAvailable && r.aiBombAvailable == g.aiBombAvailable
  {
    var d := Detonate(g.st, g.bombs, b);
    g.(st := d.0, bombs := d.1)
  }

  /** A detonation keeps every side's piece total and the invariant, and only takes bombs off the list. */
  lemma ExplodeKeeps(g: Game, b: Bomb)
    requires Consistent(g.st)
    ensures Consistent(Explode(g, b).st)
    ensures forall s: Side :: Explode(g, b).st.ToPlace(s) + Explode(g, b).st.OnBoard(s) == g.st.ToPlace(s) + g.st.OnBoard(s)
    ensures multiset(Explode(g, b).bombs) <= multiset(g.bombs)
  {
    DetonateMeaning(g.st, g.bombs, b, 0, b);
  }

  /** _handle_bomb_updates_and_detonations on the engine. */
  function BombTurn(g: Game, p: Side): (r: (bool, Game))
    ensures r.1.nextBombId == g.nextBombId && r.1.winner == g.winner
    ensures r.1.lastPlayerMove == g.lastPlayerMove && r.1.lastAiMove == g.lastAiMove
    ensures r.1.playerBombAvailable == g.playerBombAvailable && r.1.aiBombAvailable == g.aiBombAvailable
  {
    var r := BombRound(g.st, g.bombs, p);
    (r.0, g.(st := r.1, bombs := r.2))
  }

  /** A bomb round reports a detonation exactly when one of p's bombs was down to its last turn,
      and keeps every side's piece total and the invariant. */
  lemma BombTurnMeaning(g: Game, p: Side)
    ensures BombTurn(g, p).0 <==> exists i :: 0 <= i < |g.bombs| && g.bombs[i].owner == p && g.bombs[i].timer <= 1
    ensures Consistent(g.st) ==> Consistent(BombTurn(g, p).1.st)
    ensures Consistent(g.st) ==>
      forall s: Side :: BombTurn(g, p).1.st.ToPlace(s) + BombTurn(g, p).1.st.OnBoard(s) == g.st.ToPlace(s) + g.st.OnBoard(s)
  {
    BombRoundFires(g.st, g.bombs, p);
    if Consistent(g.st) {
      BombRoundKeeps(g.st, g.bombs, p);
    }
  }

  // ---------------------------------------------------------------------------
  // Round trips on the whole engine

  /** Undoing the record make_move leaves restores board and counters; the bombs keep their
      tags but a bomb carried along by a movement stays at the destination. */
  lemma PlayUndoRoundTrip(g: Game, m: Move, p: Side)
    requires Legal(g.st, m, p)
    ensures Undo(Play(g, m, p).0, LastMove(Play(g, m, p).0, p), p).st == g.st
    ensures Tags(Undo(Play(g, m, p).0, LastMove(Play(g, m, p).0, p), p).bombs) == Tags(g.bombs)
  {
    MakeUndoRoundTrip(g.st, m, p);
    if m.from != PlaceOrigin {
      RelocateMeaning(g.bombs, m.from, m.to, p);
    }
  }

  /** A movement that carries a bomb leaves it behind on the destination after the undo, while
      the piece goes back to the origin. */
  lemma UndoLeavesBombBehind(g: Game, m: Move, p: Side)
    requires Legal(g.st, m, p) && m.from != PlaceOrigin
    requires FirstOwnAt(g.bombs, m.from, p, 0) < |g.bombs|
    ensures var back := Undo(Play(g, m, p).0, LastMove(Play(g, m, p).0, p), p);
      back.st.cells[m.from] == p && back.st.cells[m.to] == 0 &&
      back.bombs[FirstOwnAt(g.bombs, m.from, p, 0)].position == m.to
  {
    MakeUndoRoundTrip(g.st, m, p);
    RelocateMeaning(g.bombs, m.from, m.to, p);
  }
}
