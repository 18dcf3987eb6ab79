/** The computer's turn: whether and where it arms its time bomb, how deep it searches, and the
    move (and capture) it then plays. Everything here is deterministic except the fallback capture,
    which takes its choice as a parameter. */
module Policy {
  import opened Topology
  import opened Rules
  import opened Bombs
  import opened Evaluation
  import opened Engine
  import opened GameTree
  import opened Search

  // ---------------------------------------------------------------------------
  // The bomb decision

  /** The computer considers its bomb only while it still has it, has a piece on the board, and
      the game is past placing or it has already placed three pieces. */
  predicate BombConsidered(g: Game)
  {
    g.aiBombAvailable && g.st.aiOnBoard > 0 && (Phase(g.st) > 1 || g.st.aiToPlace < 7)
  }

  /** The phase test adds nothing: past placing, the computer has no pieces left to place. */
  lemma BombGuardSimplifies(g: Game)
    ensures BombConsidered(g) <==> g.aiBombAvailable && g.st.aiOnBoard > 0 && g.st.aiToPlace < 7
  {
  }

  /** Player pieces next to pos (the pieces the blast would cost the opponent). */
  function OpponentHits(cells: Cells, pos: Index): nat
  {
    Occupied(cells, Neighbours(pos), 1, |Neighbours(pos)|)
  }

  /** Computer pieces next to pos (the pieces the blast would cost the computer itself). */
  function OwnHits(cells: Cells, pos: Index): nat
  {
    Occupied(cells, Neighbours(pos), 2, |Neighbours(pos)|)
  }

  /** Two points for each player piece in the blast, minus three for each of the computer's own. */
  function BombScore(cells: Cells, pos: Index): int
  {
    OpponentHits(cells, pos) * 2 - OwnHits(cells, pos) * 3
  }

  /** The acceptance test for a bomb point, as written: an opponent piece in the blast, and a
      positive score or at least two opponent pieces against at most one own. */
  predicate Acceptable(cells: Cells, pos: Index)
  {
    OpponentHits(cells, pos) > 0 &&
    (BombScore(cells, pos) > 0 || (OpponentHits(cells, pos) >= 2 && OwnHits(cells, pos) <= 1))
  }

  /** The second alternative of the test is subsumed by the first: two opponents and at most one
      own piece already score at least 1. So a point is acceptable exactly when it scores above 0
      with an opponent piece in the blast. */
  lemma AcceptableMeansPositive(cells: Cells, pos: Index)
    ensures Acceptable(cells, pos) <==> OpponentHits(cells, pos) > 0 && BombScore(cells, pos) > 0
  {
  }

  /** One step of the scan over the computer's points: a point carrying no bomb replaces the best
      so far when it scores strictly more and passes the acceptance test. */
  function ScanStep(g: Game, best: (int, int), pos: Index): (int, int)
  {
    if Bombed(g.bombs, pos) then best
    else
      var score := BombScore(g.st.cells, pos);
      if score > best.0 && OpponentHits(g.st.cells, pos) > 0 && Acceptable(g.st.cells, pos) then (score, pos)
      else best
  }

  /** The scan over the first n points of `owned`, from best score -100 and no point (-1). */
  function Scan(g: Game, owned: seq<int>, n: nat): (r: (int, int))
    requires n <= |owned|
    requires forall i :: 0 <= i < |owned| ==> 0 <= owned[i] < NumCells
    ensures r.1 == -1 || 0 <= r.1 < NumCells
  {
    if n == 0 then (-100, -1) else ScanStep(g, Scan(g, owned, n - 1), owned[n - 1])
  }

  /** A point the scan may pick: one with no bomb on it that passes the test. */
  predicate Pickable(g: Game, pos: Index)
  {
    !Bombed(g.bombs, pos) && Acceptable(g.st.cells, pos)
  }

  /** A point the bomb may go on: one of the computer's that the scan may pick. */
  predicate Eligible(g: Game, pos: Index)
  {
    g.st.cells[pos] == 2 && Pickable(g, pos)
  }

  /** What the scan sees at a point: its score when it may be picked, and otherwise -100, the
      starting best, which never replaces anything. */
  function Worth(g: Game, pos: Index): int
  {
    if Pickable(g, pos) then BombScore(g.st.cells, pos) else -100
  }

  /** The worths of the points of a list, in list order. */
  function Worths(g: Game, owned: seq<int>): (ws: seq<int>)
    requires forall i :: 0 <= i < |owned| ==> 0 <= owned[i] < NumCells
    ensures |ws| == |owned|
  {
    if owned == [] then [] else [Worth(g, owned[0])] + Worths(g, owned[1..])
  }

  lemma {:induction false} WorthsAt(g: Game, owned: seq<int>, i: nat)
    requires forall i :: 0 <= i < |owned| ==> 0 <= owned[i] < NumCells
    requires i < |owned|
    ensures Worths(g, owned)[i] == Worth(g, owned[i])
  {
    if i > 0 {
      WorthsAt(g, owned[1..], i - 1);
    }
  }

  /** The first strictly greatest of the first n values, starting from -100, with its index
      (-1 while nothing beat -100). */
  function Best(ws: seq<int>, n: nat): (b: (int, int))
    requires n <= |ws|
    ensures -100 <= b.0 && -1 <= b.1 < n
  {
    if n == 0 then (-100, -1)
    else
      var b := Best(ws, n - 1);
      if ws[n - 1] > b.0 then (ws[n - 1], n - 1) else b
  }

  /** Best holds -100 and no index, or the value at its index, above -100; nothing among the first
      n values is greater, and nothing before its index is as great. */
  lemma {:induction false} BestMeaning(ws: seq<int>, n: nat)
    requires n <= |ws|
    ensures var b := Best(ws, n);
      (b.1 == -1 ==> b.0 == -100) &&
      (b.1 != -1 ==> ws[b.1] == b.0 && b.0 > -100) &&
      forall i :: 0 <= i < n ==> ws[i] <= b.0 && (i < b.1 ==> ws[i] < b.0)
  {
    if n > 0 {
      BestMeaning(ws, n - 1);
    }
  }

  /** The scan is Best over the worths: it holds the same value, and the point at Best's index. */
  lemma {:induction false} ScanIsBest(g: Game, owned: seq<int>, n: nat)
    requires n <= |owned|
    requires forall i :: 0 <= i < |owned| ==> 0 <= owned[i] < NumCells
    ensures var r, b := Scan(g, owned, n), Best(Worths(g, owned), n);
      r.0 == b.0 && r.1 == (if b.1 == -1 then -1 else owned[b.1])
  {
    if n > 0 {
      ScanIsBest(g, owned, n - 1);
      WorthsAt(g, owned, n - 1);
      AcceptableMeansPositive(g.st.cells, owned[n - 1]);
    }
  }

  /** Over an increasing list, the scan either found nothing (and still holds -100) and no point
      of the list may be picked, or holds a point of the list that may be picked, with its score,
      at least 1; no pickable point of the list scores more, and none before it scores as much
      (the first best wins). */
  lemma ScanMeaning(g: Game, owned: seq<int>)
    requires forall i :: 0 <= i < |owned| ==> 0 <= owned[i] < NumCells
    requires forall i, j :: 0 <= i < j < |owned| ==> owned[i] < owned[j]
    ensures var r := Scan(g, owned, |owned|);
      (r.1 == -1 ==> r.0 == -100 && forall i :: 0 <= i < |owned| ==> !Pickable(g, owned[i])) &&
      (r.1 != -1 ==> r.1 in owned && Pickable(g, r.1) && BombScore(g.st.cells, r.1) == r.0 && r.0 >= 1) &&
      (forall i :: 0 <= i < |owned| && Pickable(g, owned[i]) ==>
        BombScore(g.st.cells, owned[i]) <= r.0 && (owned[i] < r.1 ==> BombScore(g.st.cells, owned[i]) < r.0))
  {
    var r, ws := Scan(g, owned, |owned|), Worths(g, owned);
    var b := Best(ws, |owned|);
    ScanIsBest(g, owned, |owned|);
    BestMeaning(ws, |owned|);
    forall i | 0 <= i < |owned|
      ensures Pickable(g, owned[i]) ==> BombScore(g.st.cells, owned[i]) == ws[i] >= 1
      ensures !Pickable(g, owned[i]) ==> ws[i] == -100
    {
      WorthsAt(g, owned, i);
      AcceptableMeansPositive(g.st.cells, owned[i]);
    }
    if b.1 != -1 {
      forall i | 0 <= i < |owned| && owned[i] < r.1
        ensures i < b.1
      {
      }
    }
  }

  /** The bomb decision of ai_move: the point the computer arms, if any. The scan runs over the
      computer's points in increasing order, and the bomb is armed only when a point was found
      and its score is at least 1. */
  function BombTarget(g: Game): Option<Index>
  {
    if !BombConsidered(g) then None
    else
      var owned := Pieces(g.st.cells, 2, 0);
      var r := Scan(g, owned, |owned|);
      if r.1 != -1 && r.0 >= 1 then Some(r.1) else None
  }

  /** The computer arms its bomb exactly when it considers it and some point is eligible; the point
      it picks is eligible, scores highest of all eligible points, and is the lowest-numbered of
      those that do. */
  lemma BombTargetMeaning(g: Game)
    ensures BombTarget(g).None? <==> !BombConsidered(g) || forall q: Index :: !Eligible(g, q)
    ensures BombTarget(g).Some? ==>
      var t := BombTarget(g).value;
      BombConsidered(g) && Eligible(g, t) && BombScore(g.st.cells, t) >= 1 &&
      forall q: Index :: Eligible(g, q) ==>
        BombScore(g.st.cells, q) <= BombScore(g.st.cells, t) && (q < t ==> BombScore(g.st.cells, q) < BombScore(g.st.cells, t))
  {
    ScanOverPieces(g);
  }

  /** The scan over the computer's points, in terms of points: what it holds is eligible, and every
      eligible point makes it find something that scores at least as much, strictly more when
      that point comes first. */
  lemma ScanOverPieces(g: Game)
    ensures var owned := Pieces(g.st.cells, 2, 0);
      var r := Scan(g, owned, |owned|);
      (r.1 != -1 ==> Eligible(g, r.1) && BombScore(g.st.cells, r.1) == r.0 && r.0 >= 1) &&
      forall q: Index :: Eligible(g, q) ==>
        r.1 != -1 && BombScore(g.st.cells, q) <= r.0 && (q < r.1 ==> BombScore(g.st.cells, q) < r.0)
  {
    var owned := Pieces(g.st.cells, 2, 0);
    PiecesIncreasing(g.st.cells, 2, 0);
    ScanMeaning(g, owned);
    var r := Scan(g, owned, |owned|);
    forall q: Index | Eligible(g, q)
      ensures r.1 != -1 && BombScore(g.st.cells, q) <= r.0 && (q < r.1 ==> BombScore(g.st.cells, q) < r.0)
    {
      PiecesExact(g.st.cells, 2, 0, q);
      var i :| 0 <= i < |owned| && owned[i] == q;
    }
    if r.1 != -1 {
      PiecesExact(g.st.cells, 2, 0, r.1);
    }
  }

  // ---------------------------------------------------------------------------
  // The search depth

  /** The depth ai_move searches to: 3, then 4 with at most ten pieces left in all, 5 with at most
      six, and at least 5 in the flying phase. */
  function SearchDepth(st: State): nat
  {
    var total := st.playerOnBoard + st.aiOnBoard + st.playerToPlace + st.aiToPlace;
    var depth := if total <= 6 then 5 else if total <= 10 then 4 else 3;
    if Phase(st) == 3 then Max(depth, 5) else depth
  }

  /** The depth is between 3 and 5: 5 exactly with at most six pieces left or in the flying
      phase, 3 exactly with more than ten left outside it. */
  lemma DepthPolicy(st: State)
    ensures 3 <= SearchDepth(st) <= 5
    ensures var total := st.playerOnBoard + st.aiOnBoard + st.playerToPlace + st.aiToPlace;
      (SearchDepth(st) == 5 <==> total <= 6 || Phase(st) == 3) &&
      (SearchDepth(st) == 3 <==> total > 10 && Phase(st) != 3)
  {
  }

  // ---------------------------------------------------------------------------
  // The computer's turn

  /** The capture ai_move makes after closing a mill: the one the search chose when it is still
      valid, else one of the valid captures picked by `pick` (the random choice), else none. */
  function Removal(g: Game, remove: Option<int>, pick: nat): (r: Option<int>)
    ensures r.Some? ==> IsValidRemoval(g.st.cells, r.value, 2)
    ensures r.None? <==> RemovalOptions(g.st.cells, 2, 0) == []
  {
    var options := RemovalOptions(g.st.cells, 2, 0);
    if remove.Some? && IsValidRemoval(g.st.cells, remove.value, 2) then
      RemovalOptionsExact(g.st.cells, 2, 0, remove.value);
      remove
    else if options == [] then None
    else
      RemovalOptionsExact(g.st.cells, 2, 0, options[pick % |options|]);
      Some(options[pick % |options|])
  }

  /** ai_move: arm the bomb when the decision says so; otherwise search with the widest window and
      play what the search chose. */
  function AiTurn(g: Game, pick: nat): Game
  {
    match BombTarget(g)
    case Some(t) => ArmBomb(g, 2, t)
    case None =>
      var s := Search.Search(g, SearchDepth(g.st), -Inf, Inf, true);
      PlayAction(s.after, s.best, pick)
  }

  /** The rest of ai_move once the search is back: nothing when it found no action; otherwise the
      move, then a capture when it closed a mill. */
  function PlayAction(g: Game, best: Option<Action>, pick: nat): Game
  {
    match best
    case None => g
    case Some(a) =>
      var played := Play(g, a.move, 2);
      if !played.1 then played.0 else Capturing(played.0, a.remove, pick)
  }

  /** The capture after the computer's move closed a mill: the one Removal settles on, if any. */
  function Capturing(g: Game, remove: Option<int>, pick: nat): Game
  {
    match Removal(g, remove, pick)
    case None => g
    case Some(q) => Remove(g, q, 2).0
  }

  /** An action the computer may play is played as chosen: the move is made, the chosen capture
      (if any) follows, the invariant is kept, and the random choice plays no part. */
  lemma PlayActionMeaning(g: Game, a: Action, pick: nat, other: nat)
    requires Consistent(g.st) && Chosen(g.st, a, 2)
    ensures var made := MakeMove(g.st, a.move, 2);
      PlayAction(g, Some(a), pick).st == (if a.remove.Some? then PerformRemoval(made.0, a.remove.value, 2) else made.0)
    ensures Consistent(PlayAction(g, Some(a), pick).st)
    ensures PlayAction(g, Some(a), pick) == PlayAction(g, Some(a), other)
  {
    ValidMovesAreLegal(g.st, 2, a.move);
    MovePreservesConsistency(g.st, a.move, 2);
    var made := MakeMove(g.st, a.move, 2);
    var played := Play(g, a.move, 2);
    assert played.0.st == made.0 && played.1 == made.1;
    if a.remove.Some? {
      assert Removal(played.0, a.remove, pick) == a.remove == Removal(played.0, a.remove, other);
      CapturePreservesConsistency(made.0, a.remove.value, 2);
    } else if played.1 {
      assert Removal(played.0, a.remove, pick).None? && Removal(played.0, a.remove, other).None?;
    }
  }

  /** When the computer does not arm its bomb, it plays exactly the action the search chose on
      the position it found, and the search stops at once only when the game is over or the
      computer cannot move. */
  lemma AiTurnPlaysChosen(g: Game, pick: nat)
    requires Consistent(g.st) && BombTarget(g).None?
    ensures var s := Search.Search(g, SearchDepth(g.st), -Inf, Inf, true);
      (s.best.Some? <==> !GameOver(g.st).0 && ValidMoves(g.st, 2) != []) &&
      (s.best.None? ==> AiTurn(g, pick).st == g.st) &&
      (s.best.Some? ==>
        var a := s.best.value;
        var made := MakeMove(g.st, a.move, 2);
        a.move in ValidMoves(g.st, 2) &&
        AiTurn(g, pick).st == (if a.remove.Some? then PerformRemoval(made.0, a.remove.value, 2) else made.0))
  {
    var s := Search.Search(g, SearchDepth(g.st), -Inf, Inf, true);
    DepthPolicy(g.st);
    ConsistentPools(g.st);
    if s.best.Some? {
      PlayActionMeaning(s.after, s.best.value, pick, pick);
    }
  }

  /** The computer's turn keeps the piece-pool invariant, and the random choice never matters on
      a position the game can reach. */
  lemma AiTurnKeepsConsistent(g: Game, pick: nat, other: nat)
    requires Consistent(g.st)
    ensures Consistent(AiTurn(g, pick).st)
    ensures AiTurn(g, pick) == AiTurn(g, other)
  {
    if BombTarget(g).None? {
      var s := Search.Search(g, SearchDepth(g.st), -Inf, Inf, true);
      DepthPolicy(g.st);
      ConsistentPools(g.st);
      if s.best.Some? {
        PlayActionMeaning(s.after, s.best.value, pick, other);
      }
    }
  }
}
