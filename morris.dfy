/** The engine object: the board as a 24-cell sequence and the counters, bomb list, flags, last-move
    records and winner as fields, each method updating them in place as the engine does. Every
    method is proved to leave exactly the state (and return exactly the result) the corresponding
    function on the engine value prescribes; the properties of those functions are proved in
    their own modules. */
module Morris {
  import opened Topology
  import opened Rules
  import opened Bombs
  import opened Evaluation
  import opened Engine
  import opened GameTree
  import opened Search
  import opened Policy

  class NineMensMorris {
    var board: Cells
    var playerToPlace: int
    var aiToPlace: int
    var playerOnBoard: int
    var aiOnBoard: int
    var bombs: seq<Bomb>
    var nextBombId: int
    var playerBombAvailable: bool
    var aiBombAvailable: bool
    var lastPlayerMove: Option<Details>
    var lastAiMove: Option<Details>
    var winner: Winner

    /** Board and counters as a value. */
    function Snapshot(): State
      reads this
    {
      State(board, playerToPlace, aiToPlace, playerOnBoard, aiOnBoard)
    }

    /** The whole engine as a value. */
    function Model(): Game
      reads this
    {
      Game(Snapshot(), bombs, nextBombId, playerBombAvailable, aiBombAvailable, lastPlayerMove, lastAiMove, winner)
    }

    /** A new game: empty board, nine pieces to place each, both bombs available. */
    constructor ()
      ensures Model() == Initial()
    {
      board := seq(NumCells, i => 0);
      playerToPlace, aiToPlace, playerOnBoard, aiOnBoard := 9, 9, 0, 0;
      bombs, nextBombId := [], 0;
      playerBombAvailable, aiBombAvailable := true, true;
      lastPlayerMove, lastAiMove, winner := None, None, NoWinner;
    }

    /** Records d as side p's last move. */
    method SetLastMove(p: Side, d: Option<Details>)
      modifies this
      ensures Model() == WithLastMove(old(Model()), p, d)
    {
      if p == 1 {
        lastPlayerMove := d;
      } else {
        lastAiMove := d;
      }
    }

    /** forms_mill (and its twin is_in_mill): the point holds p and some mill line through it,
        scanned in table order, is held entirely by p. */
    method CheckMill(position: int, p: Side) returns (forms: bool)
      ensures forms == FormsMill(board, position, p)
    {
      if !(0 <= position <= 23) || board[position] != p {
        return false;
      }
      MillsWellFormed();
      var k := 0;
      while k < |Mills|
        invariant 0 <= k <= |Mills|
        invariant ScanMills(board, position, p, k) == ScanMills(board, position, p, 0)
        decreases |Mills| - k
      {
        var mill := Mills[k];
        OnMillIsMembership(position, k);
        if position in mill {
          if board[mill[0]] == p && board[mill[1]] == p && board[mill[2]] == p {
            return true;
          }
        }
        k := k + 1;
      }
      return false;
    }

    /** is_valid_removal: an opponent piece, and one standing in a mill only when every opponent
        piece, looked at in board order, stands in a mill. */
    method CheckRemoval(position: int, remover: Side) returns (ok: bool)
      ensures ok == IsValidRemoval(board, position, remover)
    {
      var opponent := Opponent(remover);
      if !(0 <= position <= 23) {
        return false;
      }
      if board[position] != opponent {
        return false;
      }
      var opponentInMill := CheckMill(position, opponent);
      if !opponentInMill {
        return true;
      }
      var allInMills := true;
      var q := 0;
      while q < NumCells
        invariant 0 <= q <= NumCells && allInMills
        invariant AllInMills(board, opponent, q) == AllInMills(board, opponent, 0)
        decreases NumCells - q
      {
        if board[q] == opponent {
          var inMill := CheckMill(q, opponent);
          if !inMill {
            allInMills := false;
            break;
          }
        }
        q := q + 1;
      }
      return allInMills;
    }

    /** get_valid_moves: while p has pieces to place, every empty point in board order; otherwise,
        for each of p's pieces in board order, every empty point when p may fly, or every empty
        neighbour in table order. */
    method GetValidMoves(p: Side) returns (moves: seq<Move>)
      ensures moves == ValidMoves(Snapshot(), p)
    {
      var toPlace := if p == 1 then playerToPlace else aiToPlace;
      var onBoard := if p == 1 then playerOnBoard else aiOnBoard;
      if toPlace > 0 {
        return Targets(PlaceOrigin, Pieces(board, 0, 0));
      }
      var canFly := onBoard <= 3;
      var own := Pieces(board, p, 0);
      var empty := Pieces(board, 0, 0);
      if canFly {
        moves := FlyingMoves(own, empty);
      } else {
        moves := SlidingMoves(own, empty);
      }
    }

    /** The flying loops of get_valid_moves: each origin to each empty point. */
    method FlyingMoves(froms: seq<int>, tos: seq<int>) returns (moves: seq<Move>)
      ensures moves == FlyMoves(froms, tos)
    {
      moves := [];
      var i := 0;
      while i < |froms|
        invariant 0 <= i <= |froms|
        invariant moves == FlyMoves(froms[..i], tos)
        decreases |froms| - i
      {
        var j := 0;
        while j < |tos|
          invariant 0 <= j <= |tos|
          invariant moves == FlyMoves(froms[..i], tos) + Targets(froms[i], tos[..j])
          decreases |tos| - j
        {
          PrefixSnoc(tos, j);
          TargetsSnoc(froms[i], tos[..j], tos[j]);
          moves := moves + [Move(tos[j], froms[i])];
          j := j + 1;
        }
        assert tos[..j] == tos;
        PrefixSnoc(froms, i);
        FlyMovesSnoc(froms[..i], froms[i], tos);
        i := i + 1;
      }
      assert froms[..i] == froms;
    }

    /** The sliding loop of get_valid_moves: each origin to its empty neighbours. */
    method SlidingMoves(froms: seq<int>, empty: seq<int>) returns (moves: seq<Move>)
      requires forall i :: 0 <= i < |froms| ==> 0 <= froms[i] < NumCells
      requires empty == Pieces(board, 0, 0)
      ensures moves == StepMoves(board, froms)
    {
      var cells := board;
      moves := [];
      var i := 0;
      while i < |froms|
        invariant 0 <= i <= |froms|
        invariant moves == StepMoves(cells, froms[..i])
        decreases |froms| - i
      {
        var from := froms[i];
        var step := EmptyNeighbourMoves(from, empty);
        PrefixSnoc(froms, i);
        StepMovesSnoc(cells, froms[..i], from);
        moves := moves + step;
        i := i + 1;
      }
      assert froms[..i] == froms;
    }

    /** The inner sliding loop: from one origin to each neighbour, in table order, that is in the
        list of empty points. */
    method EmptyNeighbourMoves(from: Index, empty: seq<int>) returns (moves: seq<Move>)
      requires empty == Pieces(board, 0, 0)
      ensures moves == Targets(from, EmptyAmong(board, Neighbours(from)))
    {
      var cells := board;
      var ns := Neighbours(from);
      moves := [];
      var j := 0;
      while j < |ns|
        invariant 0 <= j <= |ns|
        invariant moves == Targets(from, EmptyAmong(cells, ns[..j]))
        decreases |ns| - j
      {
        PrefixSnoc(ns, j);
        EmptyAmongSnoc(cells, ns[..j], ns[j]);
        PiecesExact(cells, 0, 0, ns[j]);
        if ns[j] in empty {
          TargetsSnoc(from, EmptyAmong(cells, ns[..j]), ns[j]);
          moves := moves + [Move(ns[j], from)];
        }
        j := j + 1;
      }
      assert ns[..j] == ns;
    }

    /** make_move: places or moves a piece of p when that is legal, carrying along the first of p's
        bombs on the origin, and reports whether the arriving piece completes a mill. */
    method MakeMove(m: Move, p: Side) returns (mill: bool)
      modifies this
      ensures (Model(), mill) == Play(old(Model()), m, p)
    {
      ghost var g := Model();
      if m.from == PlaceOrigin {
        if !IsValidPlace(Snapshot(), m.to) {
          return false;
        }
        PlacePiece(m.to, p);
        mill := CheckMill(m.to, p);
        PlaceSteps(g, m, p);
      } else {
        if !IsValidMove(Snapshot(), m.from, m.to, p) {
          return false;
        }
        ShiftPiece(m.from, m.to, p);
        mill := CheckMill(m.to, p);
        ShiftSteps(g, m, p);
      }
    }

    /** The placement half of make_move: the piece down on an empty point, one fewer to place and
        one more on the board, and the placement recorded. */
    method PlacePiece(to: Index, p: Side)
      modifies this
      ensures Model() == WithLastMove(old(Model()).(st := old(Snapshot()).(cells := old(board)[to := p]).WithCounters(
                                        p, old(Snapshot()).ToPlace(p) - 1, old(Snapshot()).OnBoard(p) + 1)),
                                      p, Some(Details(to, PlaceOrigin, None)))
    {
      board := board[to := p];
      if p == 1 {
        playerToPlace, playerOnBoard := playerToPlace - 1, playerOnBoard + 1;
      } else {
        aiToPlace, aiOnBoard := aiToPlace - 1, aiOnBoard + 1;
      }
      SetLastMove(p, Some(Details(to, PlaceOrigin, None)));
    }

    /** The movement half of make_move: the origin emptied, the piece on the destination, the
        movement recorded, and the first of p's bombs on the origin carried along. */
    method ShiftPiece(from: Index, to: Index, p: Side)
      modifies this
      ensures Model() == WithLastMove(old(Model()).(st := old(Snapshot()).(cells := old(board)[from := 0][to := p]),
                                                    bombs := Relocate(old(bombs), from, to, p)),
                                      p, Some(Details(to, from, None)))
    {
      board := board[from := 0];
      board := board[to := p];
      SetLastMove(p, Some(Details(to, from, None)));
      RelocateBomb(from, to, p);
    }

    /** The bomb loop of make_move: the first bomb of p on `from` now sits on `to`. */
    method RelocateBomb(from: int, to: Index, p: Side)
      modifies this
      ensures Model() == old(Model()).(bombs := Relocate(old(bombs), from, to, p))
    {
      var i := 0;
      while i < |bombs|
        invariant 0 <= i <= |bombs| && bombs == old(bombs)
        invariant FirstOwnAt(bombs, from, p, 0) == FirstOwnAt(bombs, from, p, i)
        decreases |bombs| - i
      {
        if bombs[i].position == from && bombs[i].owner == p {
          bombs := bombs[i := bombs[i].(position := to)];
          return;
        }
        i := i + 1;
      }
    }

    /** Takes the first bomb on pos off the list, and returns it. */
    method DetachBomb(pos: int) returns (taken: Option<Bomb>)
      modifies this
      ensures taken == Detach(old(bombs), pos).1
      ensures Model() == old(Model()).(bombs := Detach(old(bombs), pos).0)
    {
      taken := None;
      var i := 0;
      while i < |bombs|
        invariant 0 <= i <= |bombs| && bombs == old(bombs)
        invariant FirstAt(bombs, pos, 0) == FirstAt(bombs, pos, i)
        decreases |bombs| - i
      {
        if bombs[i].position == pos {
          taken := Some(bombs[i]);
          bombs := Without(bombs, i);
          return;
        }
        i := i + 1;
      }
    }

    /** perform_removal: a valid capture empties the point, disarms the first bomb on it, takes
        the piece off its owner's on-board count and notes the point in the remover's record. */
    method PerformRemoval(pos: int, remover: Side) returns (ok: bool)
      modifies this
      ensures (Model(), ok) == Remove(old(Model()), pos, remover)
    {
      ghost var g := Model();
      var valid := CheckRemoval(pos, remover);
      if !valid {
        return false;
      }
      RemoveSteps(g, pos, remover);
      var _ := CaptureByHand(pos, Opponent(remover));
      var last := if remover == 1 then lastPlayerMove else lastAiMove;
      if last.Some? {
        SetLastMove(remover, Some(last.value.(removed := Some(pos))));
      }
      ok := true;
    }

    /** undo_move: puts back a recorded capture when its point is empty, then takes back the
        placement or reverses the movement the record describes. */
    method UndoMove(details: Option<Details>, p: Side)
      modifies this
      ensures Model() == Undo(old(Model()), details, p)
    {
      if details.None? {
        return;
      }
      var d := details.value;
      PutBackCaptured(d.removed, Opponent(p));
      TakeBack(d, p);
    }

    /** The first half of undo_move. */
    method PutBackCaptured(removed: Option<int>, opponent: Side)
      modifies this
      ensures Model() == old(Model()).(st := Rules.PutBackCaptured(old(Snapshot()), removed, opponent))
    {
      if removed.Some? {
        var r := removed.value;
        if 0 <= r <= 23 && board[r] == 0 {
          board := board[r := opponent];
          if opponent == 1 {
            playerOnBoard := playerOnBoard + 1;
          } else {
            aiOnBoard := aiOnBoard + 1;
          }
        }
      }
    }

    /** The second half of undo_move. */
    method TakeBack(d: Details, p: Side)
      modifies this
      ensures Model() == old(Model()).(st := Rules.TakeBack(old(Snapshot()), d, p))
    {
      if d.from == PlaceOrigin {
        if 0 <= d.to <= 23 && board[d.to] == p {
          board := board[d.to := 0];
          if p == 1 {
            playerToPlace, playerOnBoard := playerToPlace + 1, playerOnBoard - 1;
          } else {
            aiToPlace, aiOnBoard := aiToPlace + 1, aiOnBoard - 1;
          }
        }
      } else if d.from != BombOrigin {
        if 0 <= d.to <= 23 && board[d.to] == p {
          board := board[d.to := 0];
          if 0 <= d.from <= 23 && board[d.from] == 0 {
            board := board[d.from := p];
          }
        }
      }
    }

    /** _place_bomb: arms p's bomb on pos with the next number and the initial timer. */
    method PlaceBomb(p: Side, pos: Index)
      modifies this
      ensures Model() == ArmBomb(old(Model()), p, pos)
    {
      nextBombId := nextBombId + 1;
      bombs := bombs + [Bomb(nextBombId, p, pos, BombInitialTimer)];
      if p == 1 {
        playerBombAvailable := false;
      } else {
        aiBombAvailable := false;
      }
      SetLastMove(p, Some(Details(pos, BombOrigin, None)));
    }

    /** is_game_over: the player's conditions are tested first, and the verdict is recorded. */
    method IsGameOver() returns (over: bool)
      modifies this
      ensures (over, Model()) == CheckGameOver(old(Model()))
    {
      var playerDone := playerToPlace == 0;
      var aiDone := aiToPlace == 0;
      if playerDone && playerOnBoard < 3 {
        winner := AiWon;
        return true;
      }
      if aiDone && aiOnBoard < 3 {
        winner := PlayerWon;
        return true;
      }
      var playerMoves := GetValidMoves(1);
      var aiMoves := GetValidMoves(2);
      var playerCanMove := playerMoves != [];
      var aiCanMove := aiMoves != [];
      if playerDone && !playerCanMove {
        winner := AiWon;
        return true;
      }
      if aiDone && !aiCanMove {
        winner := PlayerWon;
        return true;
      }
      winner := NoWinner;
      return false;
    }

    /** The blast reaching point q, as the loop body of _detonate_bomb does it. */
    method BlastPoint(q: Index)
      modifies this
      ensures (Snapshot(), bombs) == Bombs.BlastPoint(old(Snapshot()), old(bombs), q)
      ensures Model() == old(Model()).(st := Snapshot(), bombs := bombs)
    {
      if board[q] != 0 {
        var _ := DetachBomb(q);
        if board[q] == 1 {
          board := board[q := 0];
          playerOnBoard, playerToPlace := playerOnBoard - 1, playerToPlace + 1;
        } else if board[q] == 2 {
          board := board[q := 0];
          aiOnBoard, aiToPlace := aiOnBoard - 1, aiToPlace + 1;
        }
      }
    }

    /** _detonate_bomb: the blast reaches the neighbours of the bomb's point in table order. */
    method DetonateBomb(b: Bomb)
      modifies this
      ensures Model() == Explode(old(Model()), b)
    {
      var ns := Neighbours(b.position);
      var k := 0;
      while k < |ns|
        invariant 0 <= k <= |ns|
        invariant BlastFrom(Snapshot(), bombs, ns, k) == Detonate(old(Snapshot()), old(bombs), b)
        invariant Model() == old(Model()).(st := Snapshot(), bombs := bombs)
        decreases |ns| - k
      {
        BlastFromStep(Snapshot(), bombs, ns, k);
        BlastPoint(ns[k]);
        k := k + 1;
      }
    }

    /** The first loop of _handle_bomb_updates_and_detonations: p's bombs lose a turn, and those
        that have run out are queued in list order. */
    method TickBombs(p: Side) returns (queue: seq<Bomb>)
      modifies this
      ensures bombs == Tick(old(bombs), p) && queue == Due(bombs, p)
      ensures Model() == old(Model()).(bombs := bombs)
    {
      bombs, queue := TickList(bombs, p);
    }

    /** The ticking loop on the list itself. */
    method TickList(bs: seq<Bomb>, p: Side) returns (ticked: seq<Bomb>, queue: seq<Bomb>)
      ensures ticked == Tick(bs, p) && queue == Due(ticked, p)
    {
      queue := [];
      ticked := bs;
      var i := 0;
      while i < |ticked|
        invariant 0 <= i <= |ticked| == |bs|
        invariant forall j :: 0 <= j < i ==> ticked[j] == TickOne(bs[j], p)
        invariant forall j :: i <= j < |ticked| ==> ticked[j] == bs[j]
        invariant queue == Due(ticked[..i], p)
        decreases |ticked| - i
      {
        ghost var before := ticked;
        if ticked[i].owner == p {
          ticked := ticked[i := ticked[i].(timer := ticked[i].timer - 1)];
          if ticked[i].timer <= 0 {
            queue := queue + [ticked[i]];
          }
        }
        assert ticked[..i + 1] == before[..i] + [ticked[i]];
        DueSnoc(before[..i], ticked[i], p);
        i := i + 1;
      }
      forall j | 0 <= j < |ticked|
        ensures ticked[j] == Tick(bs, p)[j]
      {
        TickMeaning(bs, p, j);
      }
      assert ticked[..i] == ticked;
    }

    /** The queued bombs go off in queue order. */
    method DetonateQueue(queue: seq<Bomb>)
      modifies this
      ensures (Snapshot(), bombs) == DetonateAll(old(Snapshot()), old(bombs), queue, 0)
      ensures Model() == old(Model()).(st := Snapshot(), bombs := bombs)
    {
      var k := 0;
      while k < |queue|
        invariant 0 <= k <= |queue|
        invariant DetonateAll(Snapshot(), bombs, queue, k) == DetonateAll(old(Snapshot()), old(bombs), queue, 0)
        invariant Model() == old(Model()).(st := Snapshot(), bombs := bombs)
        decreases |queue| - k
      {
        DetonateBomb(queue[k]);
        k := k + 1;
      }
    }

    /** The queued bombs still on the list are taken off it. */
    method RemoveQueue(queue: seq<Bomb>)
      modifies this
      ensures Model() == old(Model()).(bombs := RemoveAll(old(bombs), queue, 0))
    {
      var k := 0;
      while k < |queue|
        invariant 0 <= k <= |queue|
        invariant RemoveAll(bombs, queue, k) == RemoveAll(old(bombs), queue, 0)
        invariant Model() == old(Model()).(bombs := bombs)
        decreases |queue| - k
      {
        if queue[k] in bombs {
          bombs := RemoveValue(bombs, queue[k]);
        }
        k := k + 1;
      }
    }

    /** _handle_bomb_updates_and_detonations: p's bombs tick; when some have run out they go off
        in list order and are then taken off the list; the result says whether any went off. */
    method HandleBombUpdatesAndDetonations(p: Side) returns (fired: bool)
      modifies this
      ensures (fired, Model()) == BombTurn(old(Model()), p)
    {
      var queue := TickBombs(p);
      if queue == [] {
        return false;
      }
      DetonateQueue(queue);
      RemoveQueue(queue);
      return true;
    }

    /** The mill loop of evaluate_board: each line's points are counted by content and the line is
        classified, the tests made in the same order. */
    method CountMills() returns (t: MillTally)
      ensures t == TallyTo(board, |Mills|)
    {
      t := MillTally(0, 0, 0, 0);
      var k := 0;
      MillsWellFormed();
      while k < |Mills|
        invariant 0 <= k <= |Mills|
        invariant t == TallyTo(board, k)
        decreases |Mills| - k
      {
        var empty, player, ai := LineCounts(Mills[k]);
        if ai == 3 {
          t := t.(aiMills := t.aiMills + 1);
        } else if player == 3 {
          t := t.(playerMills := t.playerMills + 1);
        } else if ai == 2 && empty == 1 {
          t := t.(aiAlmost := t.aiAlmost + 1);
        } else if player == 2 && empty == 1 {
          t := t.(playerAlmost := t.playerAlmost + 1);
        }
        k := k + 1;
      }
    }

    /** How many of the points of a line are empty, the player's and the computer's. */
    method LineCounts(mill: seq<int>) returns (empty: nat, player: nat, ai: nat)
      requires forall i :: 0 <= i < |mill| ==> 0 <= mill[i] < NumCells
      ensures empty == Occupied(board, mill, 0, |mill|)
      ensures player == Occupied(board, mill, 1, |mill|)
      ensures ai == Occupied(board, mill, 2, |mill|)
    {
      empty, player, ai := 0, 0, 0;
      var j := 0;
      while j < |mill|
        invariant 0 <= j <= |mill|
        invariant empty == Occupied(board, mill, 0, j)
        invariant player == Occupied(board, mill, 1, j)
        invariant ai == Occupied(board, mill, 2, j)
        decreases |mill| - j
      {
        var v := board[mill[j]];
        if v == 0 {
          empty := empty + 1;
        } else if v == 1 {
          player := player + 1;
        } else {
          ai := ai + 1;
        }
        j := j + 1;
      }
    }

    /** evaluate_board: the game-over test first (a finished game scores the win), then the mill
        and almost-mill counts, the weighted sum, and the overrides for a side that has lost. */
    method EvaluateBoard() returns (score: int)
      modifies this
      ensures (score, Model()) == Score(old(Model()))
    {
      var over := IsGameOver();
      if over {
        score := if winner == AiWon then WinScore else if winner == PlayerWon then -WinScore else 0;
        return;
      }
      winner := NoWinner;
      var t := CountMills();
      var aiValidMoves := GetValidMoves(2);
      var playerValidMoves := GetValidMoves(1);
      score := WeightedSum(t, |aiValidMoves|, |playerValidMoves|);
      if aiToPlace == 0 && aiOnBoard < 3 {
        return -WinScore;
      }
      if playerToPlace == 0 && playerOnBoard < 3 {
        return WinScore;
      }
      if playerToPlace == 0 && playerValidMoves == [] {
        return WinScore;
      }
      if aiToPlace == 0 && aiValidMoves == [] {
        return -WinScore;
      }
    }

    /** The running sum of evaluate_board, term by term, given the mill counts and the two
        move-list lengths. */
    method WeightedSum(t: MillTally, aiMobility: int, playerMobility: int) returns (score: int)
      ensures score == Positional(Snapshot(), t, aiMobility, playerMobility)
    {
      var aiDonePlacing := aiToPlace == 0;
      var playerDonePlacing := playerToPlace == 0;
      var aiCanFly := aiDonePlacing && aiOnBoard <= 3;
      var playerCanFly := playerDonePlacing && playerOnBoard <= 3;
      var isFlyingPhase := aiCanFly || playerCanFly;
      var millDiff := t.aiMills - t.playerMills;
      var almostMillDiff := t.aiAlmost - t.playerAlmost;
      var aiBlocked := if aiDonePlacing && aiMobility == 0 then 1 else 0;
      var playerBlocked := if playerDonePlacing && playerMobility == 0 then 1 else 0;
      score := 0;
      score := score + (aiOnBoard - playerOnBoard) * 200;
      score := score + millDiff * 300;
      score := score + (aiToPlace - playerToPlace) * 5;
      if aiDonePlacing || playerDonePlacing {
        score := score + almostMillDiff * 50;
        score := score + (aiMobility - playerMobility) * 5;
        score := score + playerBlocked * 2000;
        score := score - aiBlocked * 4000;
      }
      if isFlyingPhase {
        score := score + millDiff * 100;
        score := score + almostMillDiff * 25;
        if aiCanFly && !playerCanFly {
          score := score + 100;
        } else if playerCanFly && !aiCanFly {
          score := score - 150;
        }
      }
    }

    // -------------------------------------------------------------------------
    // Move ordering and the alpha-beta search

    /** move_creates_mill_heuristic: would the move, made on the current board, complete a mill?
        The board is changed to find out and then put back as it was. */
    method MoveCreatesMillHeuristic(m: Move, p: Side) returns (forms: bool)
      requires OnBoardMove(m)
      modifies this
      ensures Model() == old(Model())
      ensures forms == CreatesMill(old(board), m, p)
    {
      if board[m.to] != 0 {
        return false;
      }
      var original: Cell := 0;
      if m.from != PlaceOrigin {
        if board[m.from] != p {
          return false;
        }
        original := board[m.from];
        board := board[m.from := 0];
      }
      board := board[m.to := p];
      forms := FormsMill(board, m.to, p);
      board := board[m.to := 0];
      if m.from != PlaceOrigin {
        board := board[m.from := original];
      }
      assert board == old(board);
    }

    /** The stable sort of alpha_beta_search on the heuristic, descending: the moves that complete a
        mill first, each group in list order. */
    method OrderMoves(moves: seq<Move>, p: Side) returns (ordered: seq<Move>)
      requires OnBoardMoves(moves)
      modifies this
      ensures Model() == old(Model())
      ensures ordered == Order(old(board), moves, p)
    {
      var creating: seq<Move> := [];
      var others: seq<Move> := [];
      var i := 0;
      while i < |moves|
        invariant 0 <= i <= |moves|
        invariant Model() == old(Model())
        invariant OnBoardMoves(moves[..i])
        invariant creating == Filter(board, moves[..i], p, true)
        invariant others == Filter(board, moves[..i], p, false)
        decreases |moves| - i
      {
        var m := moves[i];
        PrefixSnoc(moves, i);
        FilterSnoc(board, moves[..i], m, p, true);
        FilterSnoc(board, moves[..i], m, p, false);
        var forms := MoveCreatesMillHeuristic(m, p);
        if forms {
          creating := creating + [m];
        } else {
          others := others + [m];
        }
        i := i + 1;
      }
      assert moves[..i] == moves;
      ordered := creating + others;
    }

    /** alpha_beta_search: at a finished game, at depth 0 or without a move, the evaluation; else the
        ordered moves through the loop of the side to move. The state it leaves and the value and
        action it returns are those of the search function, whose properties (state restored,
        value a fail-soft bound of the minimax value, action a valid one) are proved there. */
    method AlphaBetaSearch(depth: nat, alpha: int, beta: int, maximizing: bool)
      returns (value: int, best: Option<Action>)
      modifies this
      ensures value == Search.Search(old(Model()), depth, alpha, beta, maximizing).value
      ensures best == Search.Search(old(Model()), depth, alpha, beta, maximizing).best
      ensures Model() == Search.Search(old(Model()), depth, alpha, beta, maximizing).after
      decreases depth, 6, 0
    {
      var over := IsGameOver();
      if over || depth == 0 {
        value := EvaluateBoard();
        return value, None;
      }
      var side := Mover(maximizing);
      var moves := GetValidMoves(side);
      if moves == [] {
        value := EvaluateBoard();
        return value, None;
      }
      ValidMovesOnBoard(Snapshot(), side);
      var ordered := OrderMoves(moves, side);
      if maximizing {
        value, best := MaxMoves(depth, ordered, alpha, beta);
      } else {
        value, best := MinMoves(depth, ordered, alpha, beta);
      }
    }

    /** The computer's move loop: strict improvement replaces the best, alpha rises to it, and the
        loop stops once beta <= alpha. */
    method MaxMoves(depth: nat, moves: seq<Move>, alpha0: int, beta: int) returns (value: int, best: Option<Action>)
      requires 0 < depth
      modifies this
      ensures SearchResult(value, best, Model()) == MaxLoop(old(Model()), depth, moves, 0, alpha0, beta, Worst(true), None)
      decreases depth, 4, 0
    {
      var alpha := alpha0;
      var maxEval := Worst(true);
      best := None;
      var i := 0;
      while i < |moves|
        invariant 0 <= i <= |moves|
        invariant MaxLoop(Model(), depth, moves, i, alpha, beta, maxEval, best) ==
          MaxLoop(old(Model()), depth, moves, 0, alpha0, beta, Worst(true), None)
        decreases |moves| - i
      {
        var v, remove := TryMove(depth, moves[i], alpha, beta, true);
        if v > maxEval {
          maxEval, best := v, Some(Action(moves[i], remove));
        }
        alpha := Max(alpha, maxEval);
        if beta <= alpha {
          return maxEval, best;
        }
        i := i + 1;
      }
      return maxEval, best;
    }

    /** The player's move loop: strict improvement replaces the best, beta falls to it, and the
        loop stops once beta <= alpha. */
    method MinMoves(depth: nat, moves: seq<Move>, alpha: int, beta0: int) returns (value: int, best: Option<Action>)
      requires 0 < depth
      modifies this
      ensures SearchResult(value, best, Model()) == MinLoop(old(Model()), depth, moves, 0, alpha, beta0, Worst(false), None)
      decreases depth, 4, 0
    {
      var beta := beta0;
      var minEval := Worst(false);
      best := None;
      var i := 0;
      while i < |moves|
        invariant 0 <= i <= |moves|
        invariant MinLoop(Model(), depth, moves, i, alpha, beta, minEval, best) ==
          MinLoop(old(Model()), depth, moves, 0, alpha, beta0, Worst(false), None)
        decreases |moves| - i
      {
        var v, remove := TryMove(depth, moves[i], alpha, beta, false);
        if v < minEval {
          minEval, best := v, Some(Action(moves[i], remove));
        }
        beta := Min(beta, minEval);
        if beta <= alpha {
          return minEval, best;
        }
        i := i + 1;
      }
      return minEval, best;
    }

    /** One move of either loop: made, answered, and undone with the record make_move left. */
    method TryMove(depth: nat, m: Move, alpha: int, beta: int, maximizing: bool) returns (value: int, remove: Option<int>)
      requires 0 < depth
      modifies this
      ensures BranchResult(value, remove, Model()) == Branch(old(Model()), depth, m, alpha, beta, maximizing)
      decreases depth, 3, 0
    {
      var side := Mover(maximizing);
      var mill := MakeMove(m, side);
      var details := if maximizing then lastAiMove else lastPlayerMove;
      value, remove := ReplyToMove(mill, depth, alpha, beta, maximizing);
      UndoMove(details, side);
    }

    /** The answer to a move just made: one search of the other side's turn, or, after a mill with
        something to capture, the capture loop. */
    method ReplyToMove(mill: bool, depth: nat, alpha: int, beta: int, maximizing: bool) returns (value: int, remove: Option<int>)
      requires 0 < depth
      modifies this
      ensures BranchResult(value, remove, Model()) == Reply(old(Model()), mill, depth, alpha, beta, maximizing)
      decreases depth, 2, 0
    {
      ReplySteps(Model(), mill, depth, alpha, beta, maximizing);
      if mill {
        var options := RemovalOptions(board, Mover(maximizing), 0);
        if options != [] {
          value, remove := SearchCaptures(depth, alpha, beta, maximizing);
          return;
        }
      }
      value := SearchReply(Deeper(depth), alpha, beta, maximizing);
      remove := None;
    }

    /** The other side's turn searched one level down, its suggested action dropped. */
    method SearchReply(d: nat, alpha: int, beta: int, maximizing: bool) returns (value: int)
      modifies this
      ensures value == Search.Search(old(Model()), d, alpha, beta, !maximizing).value
      ensures Model() == Search.Search(old(Model()), d, alpha, beta, !maximizing).after
      decreases d, 7, 0
    {
      var reply, best := AlphaBetaSearch(d, alpha, beta, !maximizing);
      value := reply;
    }

    /** The capture loop of the side that closed a mill, over the points it may capture. */
    method SearchCaptures(depth: nat, alpha: int, beta: int, maximizing: bool) returns (value: int, remove: Option<int>)
      requires 0 < depth && RemovalOptions(board, Mover(maximizing), 0) != []
      modifies this
      ensures BranchResult(value, remove, Model()) == Captures(old(Model()), depth, alpha, beta, maximizing)
      decreases depth, 1, 0
    {
      var options := RemovalOptions(board, Mover(maximizing), 0);
      RemovalOptionsValid(board, Mover(maximizing));
      if maximizing {
        value, remove := MaxCaptures(depth, options, alpha, beta);
      } else {
        value, remove := MinCaptures(depth, options, alpha, beta);
      }
    }

    /** The computer's capture loop: every capture searched with the same window, strict
        improvement replacing the best. */
    method MaxCaptures(depth: nat, options: seq<int>, alpha: int, beta: int) returns (value: int, remove: Option<int>)
      requires 0 < depth
      requires forall k :: 0 <= k < |options| ==> 0 <= options[k] < NumCells
      modifies this
      ensures BranchResult(value, remove, Model()) == MaxCaptureLoop(old(Model()), depth, options, 0, alpha, beta, Worst(true), None)
      decreases depth, 0, 2
    {
      var branchEval := Worst(true);
      remove := None;
      var j := 0;
      while j < |options|
        invariant 0 <= j <= |options|
        invariant MaxCaptureLoop(Model(), depth, options, j, alpha, beta, branchEval, remove) ==
          MaxCaptureLoop(old(Model()), depth, options, 0, alpha, beta, Worst(true), None)
        decreases |options| - j
      {
        ghost var before := Model();
        MaxCaptureStep(before, depth, options, j, alpha, beta, branchEval, remove);
        var v := CaptureAndSearch(depth, options[j], alpha, beta, true);
        if v > branchEval {
          branchEval, remove := v, Some(options[j]);
        }
        j := j + 1;
      }
      value := branchEval;
    }

    /** The player's capture loop, the mirror image. */
    method MinCaptures(depth: nat, options: seq<int>, alpha: int, beta: int) returns (value: int, remove: Option<int>)
      requires 0 < depth
      requires forall k :: 0 <= k < |options| ==> 0 <= options[k] < NumCells
      modifies this
      ensures BranchResult(value, remove, Model()) == MinCaptureLoop(old(Model()), depth, options, 0, alpha, beta, Worst(false), None)
      decreases depth, 0, 2
    {
      var branchEval := Worst(false);
      remove := None;
      var j := 0;
      while j < |options|
        invariant 0 <= j <= |options|
        invariant MinCaptureLoop(Model(), depth, options, j, alpha, beta, branchEval, remove) ==
          MinCaptureLoop(old(Model()), depth, options, 0, alpha, beta, Worst(false), None)
        decreases |options| - j
      {
        ghost var before := Model();
        MinCaptureStep(before, depth, options, j, alpha, beta, branchEval, remove);
        var v := CaptureAndSearch(depth, options[j], alpha, beta, false);
        if v < branchEval {
          branchEval, remove := v, Some(options[j]);
        }
        j := j + 1;
      }
      value := branchEval;
    }

    /** One capture of a capture loop: made by hand, the reply searched, then undone by hand. */
    method CaptureAndSearch(depth: nat, r: Index, alpha: int, beta: int, maximizing: bool) returns (value: int)
      requires 0 < depth
      modifies this
      ensures (value, Model()) == TryCapture(old(Model()), depth, r, alpha, beta, maximizing)
      decreases depth, 0, 1
    {
      ghost var g := Model();
      var owner := Opponent(Mover(maximizing));
      var original := board[r];
      var disarmed := CaptureByHand(r, owner);
      ghost var captured := Model();
      value := SearchThenPutBack(depth, r, original, owner, disarmed, alpha, beta, maximizing);
      TryCaptureSteps(g, depth, r, alpha, beta, maximizing, captured);
    }

    /** The reply searched after a capture made by hand, and the capture then undone. */
    method SearchThenPutBack(depth: nat, r: Index, original: Cell, owner: Side, disarmed: Option<Bomb>,
                             alpha: int, beta: int, maximizing: bool) returns (value: int)
      requires 0 < depth
      modifies this
      ensures value == Search.Search(old(Model()), Deeper(depth), alpha, beta, !maximizing).value
      ensures Model() == PutBack(Search.Search(old(Model()), Deeper(depth), alpha, beta, !maximizing).after, r, original, owner, disarmed)
      decreases depth, 0, 0
    {
      value := SearchReply(Deeper(depth), alpha, beta, maximizing);
      PutBackByHand(r, original, owner, disarmed);
    }

    /** The capture made by hand inside the search: the point emptied, the owner's on-board count
        lowered, and the first bomb on the point detached and returned. */
    method CaptureByHand(r: Index, owner: Side) returns (disarmed: Option<Bomb>)
      modifies this
      ensures disarmed == Detach(old(bombs), r).1
      ensures Model() == old(Model()).(st := Capture(old(Snapshot()), r, owner), bombs := Detach(old(bombs), r).0)
    {
      board := board[r := 0];
      if owner == 1 {
        playerOnBoard := playerOnBoard - 1;
      } else {
        aiOnBoard := aiOnBoard - 1;
      }
      disarmed := DetachBomb(r);
    }

    /** The capture undone by hand: a detached bomb appended at the end of the list, then the piece
        and the owner's on-board count put back. */
    method PutBackByHand(r: Index, original: Cell, owner: Side, disarmed: Option<Bomb>)
      modifies this
      ensures Model() == PutBack(old(Model()), r, original, owner, disarmed)
    {
      if disarmed.Some? {
        bombs := bombs + [disarmed.value];
      }
      board := board[r := original];
      if owner == 1 {
        playerOnBoard := playerOnBoard + 1;
      } else {
        aiOnBoard := aiOnBoard + 1;
      }
    }

    // -------------------------------------------------------------------------
    // The computer's turn

    /** How many neighbours of pos hold a piece of the player and of the computer. */
    method NeighbourHits(pos: Index) returns (opponent: int, own: int)
      ensures opponent == OpponentHits(board, pos) && own == OwnHits(board, pos)
    {
      var ns := Neighbours(pos);
      opponent, own := 0, 0;
      var j := 0;
      while j < |ns|
        invariant 0 <= j <= |ns|
        invariant opponent == Occupied(board, ns, 1, j)
        invariant own == Occupied(board, ns, 2, j)
        decreases |ns| - j
      {
        if board[ns[j]] == 1 {
          opponent := opponent + 1;
        } else if board[ns[j]] == 2 {
          own := own + 1;
        }
        j := j + 1;
      }
    }

    /** The bomb decision of ai_move: when the computer may still use its bomb, each of its pieces
        without a bomb is scored by the neighbours a blast would hit, the first best acceptable one
        kept, and it is chosen when its score is at least 1. */
    method ChooseBombTarget() returns (target: Option<Index>)
      ensures target == BombTarget(Model())
    {
      if !(aiBombAvailable && aiOnBoard > 0 && (Phase(Snapshot()) > 1 || aiToPlace < 7)) {
        return None;
      }
      var owned := Pieces(board, 2, 0);
      var bestScore, bestPos := ScanOwned(owned);
      if bestPos != -1 && bestScore >= 1 {
        return Some(bestPos);
      }
      return None;
    }

    /** The scoring loop of the bomb decision over the computer's pieces, in board order: a piece
        without a bomb whose score beats the best so far and is acceptable becomes the best. */
    method ScanOwned(owned: seq<int>) returns (bestScore: int, bestPos: int)
      requires forall i :: 0 <= i < |owned| ==> 0 <= owned[i] < NumCells
      ensures (bestScore, bestPos) == Scan(Model(), owned, |owned|)
    {
      bestPos, bestScore := -1, -100;
      var i := 0;
      while i < |owned|
        invariant 0 <= i <= |owned|
        invariant (bestScore, bestPos) == Scan(Model(), owned, i)
        decreases |owned| - i
      {
        var myPos := owned[i];
        if !Bombed(bombs, myPos) {
          var opponentHits, ownHits := NeighbourHits(myPos);
          var score: int := opponentHits * 2 - ownHits * 3;
          if score > bestScore && opponentHits > 0 {
            if opponentHits > 0 && (score > 0 || (opponentHits >= 2 && ownHits <= 1)) {
              bestScore, bestPos := score, myPos;
            }
          }
        }
        i := i + 1;
      }
    }

    /** ai_move: the bomb when a target is chosen; otherwise the search at the depth the piece count
        and phase call for, and the action it returns played, with the pick standing for the
        random choice among captures when the chosen one is no longer valid. */
    method AiMove(pick: nat)
      modifies this
      ensures Model() == AiTurn(old(Model()), pick)
    {
      var target := ChooseBombTarget();
      if target.Some? {
        PlaceBomb(2, target.value);
        return;
      }
      var depth: nat := 3;
      var total := playerOnBoard + aiOnBoard + playerToPlace + aiToPlace;
      if total <= 10 {
        depth := 4;
      }
      if total <= 6 {
        depth := 5;
      }
      if Phase(Snapshot()) == 3 {
        depth := if depth >= 5 then depth else 5;
      }
      var _, best := AlphaBetaSearch(depth, -Inf, Inf, true);
      PlayBest(best, pick);
    }

    /** The end of ai_move: the chosen action's move made and, when it closes a mill, the chosen
        capture if still valid, else the picked one among the valid captures. */
    method PlayBest(best: Option<Action>, pick: nat)
      modifies this
      ensures Model() == PlayAction(old(Model()), best, pick)
    {
      if best.None? {
        return;
      }
      var a := best.value;
      var mill := MakeMove(a.move, 2);
      if !mill {
        return;
      }
      CaptureAfterMill(a.remove, pick);
    }

    /** The capture of ai_move after a mill: the chosen point when it is still a valid capture,
        else the picked one of the valid captures, else none. */
    method CaptureAfterMill(remove: Option<int>, pick: nat)
      modifies this
      ensures Model() == Capturing(old(Model()), remove, pick)
    {
      var removalTarget: Option<int> := None;
      var stillValid := false;
      if remove.Some? {
        stillValid := CheckRemoval(remove.value, 2);
      }
      if stillValid {
        removalTarget := remove;
      } else {
        var options := RemovalOptions(board, 2, 0);
        if options != [] {
          removalTarget := Some(options[pick % |options|]);
        }
      }
      if removalTarget.Some? {
        var _ := PerformRemoval(removalTarget.value, 2);
      }
    }
  }
}
