/** The rules engine: board contents, the per-side piece pools, and every
    legality test and state change of placing, moving, flying and capturing. */
module Rules {
  import opened Topology

  datatype Option<T> = None | Some(value: T)

  /** What a point holds: 0 empty, 1 a piece of the human player, 2 a piece of the computer. */
  type Cell = c: int | 0 <= c <= 2

  /** The two sides, numbered as on the board: 1 the human player, 2 the computer. */
  type Side = s: int | s == 1 || s == 2 witness 1

  const EmptyCell: Cell := 0
  const PlayerSide: Side := 1
  const AiSide: Side := 2

  /** The 24 points of a board. */
  type Cells = b: seq<Cell> | |b| == NumCells witness seq(24, i => 0)

  function Opponent(s: Side): (o: Side)
    ensures o != s && s == 3 - o
  {
    3 - s
  }

  /** Board contents and the four piece counters (pieces still to place and pieces on the board, per side). */
  datatype State = State(cells: Cells, playerToPlace: int, aiToPlace: int, playerOnBoard: int, aiOnBoard: int)
  {
    function ToPlace(s: Side): int
    {
      if s == 1 then playerToPlace else aiToPlace
    }

    function OnBoard(s: Side): int
    {
      if s == 1 then playerOnBoard else aiOnBoard
    }

    /** This state with side s's two counters replaced. */
    function WithCounters(s: Side, toPlace: int, onBoard: int): (r: State)
      ensures r.cells == cells
      ensures r.ToPlace(s) == toPlace && r.OnBoard(s) == onBoard
      ensures r.ToPlace(Opponent(s)) == ToPlace(Opponent(s)) && r.OnBoard(Opponent(s)) == OnBoard(Opponent(s))
    {
      if s == 1 then this.(playerToPlace := toPlace, playerOnBoard := onBoard)
      else this.(aiToPlace := toPlace, aiOnBoard := onBoard)
    }
  }

  /** A move as the engine writes it: destination first, then origin; origin -1 marks a placement. */
  datatype Move = Move(to: int, from: int)

  const PlaceOrigin: int := -1
  /** Origin recorded in a last-move record when a side armed its bomb. */
  const BombOrigin: int := -2

  /** A last-move record: the move and, when it formed a mill, the point whose piece was captured. */
  datatype Details = Details(to: int, from: int, removed: Option<int>)

  datatype Winner = NoWinner | PlayerWon | AiWon

  // ---------------------------------------------------------------------------
  // Counting pieces

  /** The points from k on that hold v, in increasing order. */
  function Pieces(cells: Cells, v: Cell, k: nat): (ps: seq<int>)
    requires k <= NumCells
    ensures |ps| <= NumCells - k
    ensures forall i :: 0 <= i < |ps| ==> k <= ps[i] < NumCells && cells[ps[i]] == v
    decreases NumCells - k
  {
    if k == NumCells then []
    else (if cells[k] == v then [k] else []) + Pieces(cells, v, k + 1)
  }

  /** Pieces lists exactly the points from k on that hold v. */
  lemma {:induction false} PiecesExact(cells: Cells, v: Cell, k: nat, q: int)
    requires k <= NumCells
    ensures q in Pieces(cells, v, k) <==> k <= q < NumCells && cells[q] == v
    decreases NumCells - k
  {
    if k < NumCells {
      PiecesExact(cells, v, k + 1, q);
    }
  }

  /** Pieces lists the points in increasing order. */
  lemma {:induction false} PiecesIncreasing(cells: Cells, v: Cell, k: nat)
    requires k <= NumCells
    ensures forall i, j :: 0 <= i < j < |Pieces(cells, v, k)| ==> Pieces(cells, v, k)[i] < Pieces(cells, v, k)[j]
    decreases NumCells - k
  {
    if k < NumCells {
      PiecesIncreasing(cells, v, k + 1);
    }
  }

  /** Number of points holding v. */
  function Count(cells: Cells, v: Cell): nat
  {
    |Pieces(cells, v, 0)|
  }

  /** Writing w at point i changes the number of points holding v by at most one, as expected. */
  lemma {:induction false} PiecesUpdate(cells: Cells, i: Index, w: Cell, v: Cell, k: nat)
    requires k <= NumCells
    ensures |Pieces(cells[i := w], v, k)| ==
      |Pieces(cells, v, k)| - (if k <= i && cells[i] == v then 1 else 0) + (if k <= i && w == v then 1 else 0)
    decreases NumCells - k
  {
    if k < NumCells {
      PiecesUpdate(cells, i, w, v, k + 1);
    }
  }

  lemma CountUpdate(cells: Cells, i: Index, w: Cell, v: Cell)
    ensures Count(cells[i := w], v) == Count(cells, v) - (if cells[i] == v then 1 else 0) + (if w == v then 1 else 0)
  {
    PiecesUpdate(cells, i, w, v, 0);
  }

  /** The invariant the game keeps for each side: the counters are non-negative, at most nine
      pieces are in play, and the on-board counter is the number of that side's pieces on the board. */
  predicate SideConsistent(st: State, s: Side)
  {
    0 <= st.ToPlace(s) && 0 <= st.OnBoard(s) && st.ToPlace(s) + st.OnBoard(s) <= 9
    && st.OnBoard(s) == Count(st.cells, s)
  }

  predicate Consistent(st: State)
  {
    SideConsistent(st, 1) && SideConsistent(st, 2)
  }

  // ---------------------------------------------------------------------------
  // Mills

  /** Every point of mill line k holds p. */
  predicate FullMill(cells: Cells, k: int, p: Cell)
    requires 0 <= k < |Mills|
  {
    MillsWellFormed();
    cells[Mills[k][0]] == p && cells[Mills[k][1]] == p && cells[Mills[k][2]] == p
  }

  /** Scans the mill lines from k on for one through pos that is entirely p. */
  function ScanMills(cells: Cells, pos: int, p: Cell, k: nat): (found: bool)
    requires k <= |Mills|
    ensures found <==> exists j :: k <= j < |Mills| && OnMill(pos, j) && FullMill(cells, j, p)
    decreases |Mills| - k
  {
    if k == |Mills| then false
    else if OnMill(pos, k) && FullMill(cells, k, p) then true
    else ScanMills(cells, pos, p, k + 1)
  }

  /** Point pos holds p and lies on a mill line entirely held by p. The engine has two
      copies of this test (forms_mill and is_in_mill) with identical bodies. */
  predicate FormsMill(cells: Cells, pos: int, p: Cell)
  {
    0 <= pos <= 23 && cells[pos] == p && ScanMills(cells, pos, p, 0)
  }

  lemma FormsMillMeaning(cells: Cells, pos: int, p: Side)
    ensures FormsMill(cells, pos, p) <==>
      0 <= pos < NumCells && cells[pos] == p && exists j :: 0 <= j < |Mills| && pos in Mills[j] && FullMill(cells, j, p)
  {
    if 0 <= pos < NumCells && cells[pos] == p {
      if FormsMill(cells, pos, p) {
        var j :| 0 <= j < |Mills| && OnMill(pos, j) && FullMill(cells, j, p);
        OnMillIsMembership(pos, j);
      }
      if exists j :: 0 <= j < |Mills| && pos in Mills[j] && FullMill(cells, j, p) {
        var j :| 0 <= j < |Mills| && pos in Mills[j] && FullMill(cells, j, p);
        OnMillIsMembership(pos, j);
      }
    }
  }

  // ---------------------------------------------------------------------------
  // Legality

  predicate IsValidPlace(st: State, pos: int)
  {
    0 <= pos <= 23 && st.cells[pos] == 0
  }

  /** Side p may fly: it has finished placing and has at most three pieces on the board. */
  predicate CanFly(st: State, p: Side)
  {
    st.OnBoard(p) <= 3 && st.ToPlace(p) == 0
  }

  /** The engine's movement test, branch for branch. */
  predicate IsValidMove(st: State, from: int, to: int, p: Side)
  {
    if !(0 <= from <= 23 && 0 <= to <= 23) then false
    else if st.cells[from] != p || st.cells[to] != 0 then false
    else if st.ToPlace(p) > 0 then false
    else if CanFly(st, p) then true
    else to in Neighbours(from)
  }

  /** A move the engine would carry out: a placement on a valid point, or a valid movement. */
  predicate Legal(st: State, m: Move, p: Side)
  {
    if m.from == PlaceOrigin then IsValidPlace(st, m.to) else IsValidMove(st, m.from, m.to, p)
  }

  /** Every opponent-held point from k on is part of a full mill. */
  function AllInMills(cells: Cells, s: Side, k: nat): (all: bool)
    requires k <= NumCells
    ensures all <==> forall q :: k <= q < NumCells && cells[q] == s ==> FormsMill(cells, q, s)
    decreases NumCells - k
  {
    if k == NumCells then true
    else if cells[k] == s && !FormsMill(cells, k, s) then false
    else AllInMills(cells, s, k + 1)
  }

  /** May the remover capture the piece at pos? It must be an opponent piece, and one standing
      in a mill only when every opponent piece stands in a mill. */
  predicate IsValidRemoval(cells: Cells, pos: int, remover: Side)
  {
    var opponent := Opponent(remover);
    if !(0 <= pos <= 23) then false
    else if cells[pos] != opponent then false
    else if !FormsMill(cells, pos, opponent) then true
    else AllInMills(cells, opponent, 0)
  }

  lemma IsValidRemovalMeaning(cells: Cells, pos: int, remover: Side)
    ensures IsValidRemoval(cells, pos, remover) <==>
      0 <= pos < NumCells && cells[pos] == Opponent(remover) &&
      (!FormsMill(cells, pos, Opponent(remover)) ||
       forall q :: 0 <= q < NumCells && cells[q] == Opponent(remover) ==> FormsMill(cells, q, Opponent(remover)))
  {
  }

  /** The points from k on that the remover may capture, in increasing order. */
  function RemovalOptions(cells: Cells, remover: Side, k: nat): (rs: seq<int>)
    requires k <= NumCells
    ensures forall i :: 0 <= i < |rs| ==> k <= rs[i] < NumCells
    decreases NumCells - k
  {
    if k == NumCells then []
    else (if IsValidRemoval(cells, k, remover) then [k] else []) + RemovalOptions(cells, remover, k + 1)
  }

  /** The capture list holds exactly the points the removal test accepts. */
  lemma {:induction false} RemovalOptionsExact(cells: Cells, remover: Side, k: nat, q: int)
    requires k <= NumCells
    ensures q in RemovalOptions(cells, remover, k) <==> k <= q < NumCells && IsValidRemoval(cells, q, remover)
    decreases NumCells - k
  {
    if k < NumCells {
      var valid := IsValidRemoval(cells, k, remover);
      var head := if valid then [k] else [];
      assert RemovalOptions(cells, remover, k) == head + RemovalOptions(cells, remover, k + 1);
      assert q in head <==> q == k && valid;
      RemovalOptionsExact(cells, remover, k + 1, q);
    }
  }

  // ---------------------------------------------------------------------------
  // Move generation

  /** One move from `from` to each of `tos`, in order. */
  function Targets(from: int, tos: seq<int>): (ms: seq<Move>)
    ensures |ms| == |tos|
    ensures forall i :: 0 <= i < |ms| ==> ms[i] == Move(tos[i], from)
  {
    seq(|tos|, i requires 0 <= i < |tos| => Move(tos[i], from))
  }

  lemma TargetsMembership(from: int, tos: seq<int>, m: Move)
    ensures m in Targets(from, tos) <==> m.from == from && m.to in tos
  {
    var ms := Targets(from, tos);
    if m.from == from && m.to in tos {
      var i :| 0 <= i < |tos| && tos[i] == m.to;
      assert ms[i] == m;
    }
  }

  /** Flying: every piece in `froms` to every point of `tos`, grouped by origin. */
  function FlyMoves(froms: seq<int>, tos: seq<int>): (ms: seq<Move>)
  {
    if froms == [] then [] else Targets(froms[0], tos) + FlyMoves(froms[1..], tos)
  }

  /** The points of `adj` that are empty, in order. */
  function EmptyAmong(cells: Cells, adj: seq<int>): (es: seq<int>)
    requires forall i :: 0 <= i < |adj| ==> 0 <= adj[i] < NumCells
    ensures |es| <= |adj|
  {
    if adj == [] then []
    else (if cells[adj[0]] == 0 then [adj[0]] else []) + EmptyAmong(cells, adj[1..])
  }

  /** Sliding: every piece in `froms` to each empty neighbour, neighbours in table order. */
  function StepMoves(cells: Cells, froms: seq<int>): (ms: seq<Move>)
    requires forall i :: 0 <= i < |froms| ==> 0 <= froms[i] < NumCells
    ensures |ms| <= 4 * |froms|
  {
    if froms == [] then []
    else Targets(froms[0], EmptyAmong(cells, Neighbours(froms[0]))) + StepMoves(cells, froms[1..])
  }

  /** The lists the move generator builds grow at the end, one origin or one neighbour at a time. */
  lemma TargetsSnoc(from: int, tos: seq<int>, x: int)
    ensures Targets(from, tos + [x]) == Targets(from, tos) + [Move(x, from)]
  {
    assert forall i :: 0 <= i < |tos| ==> (tos + [x])[i] == tos[i];
  }

  lemma {:induction false} FlyMovesSnoc(froms: seq<int>, x: int, tos: seq<int>)
    ensures FlyMoves(froms + [x], tos) == FlyMoves(froms, tos) + Targets(x, tos)
    decreases |froms|
  {
    if froms != [] {
      assert (froms + [x])[1..] == froms[1..] + [x];
      FlyMovesSnoc(froms[1..], x, tos);
    }
  }

  lemma {:induction false} EmptyAmongSnoc(cells: Cells, adj: seq<int>, x: Index)
    requires forall i :: 0 <= i < |adj| ==> 0 <= adj[i] < NumCells
    ensures forall i :: 0 <= i < |adj + [x]| ==> 0 <= (adj + [x])[i] < NumCells
    ensures EmptyAmong(cells, adj + [x]) == EmptyAmong(cells, adj) + (if cells[x] == 0 then [x] else [])
    decreases |adj|
  {
    if adj != [] {
      assert (adj + [x])[1..] == adj[1..] + [x];
      EmptyAmongSnoc(cells, adj[1..], x);
    }
  }

  lemma {:induction false} StepMovesSnoc(cells: Cells, froms: seq<int>, x: Index)
    requires forall i :: 0 <= i < |froms| ==> 0 <= froms[i] < NumCells
    ensures forall i :: 0 <= i < |froms + [x]| ==> 0 <= (froms + [x])[i] < NumCells
    ensures StepMoves(cells, froms + [x]) == StepMoves(cells, froms) + Targets(x, EmptyAmong(cells, Neighbours(x)))
    decreases |froms|
  {
    if froms != [] {
      assert (froms + [x])[1..] == froms[1..] + [x];
      StepMovesSnoc(cells, froms[1..], x);
    }
  }

  /** The engine's move list for side p, in the order it generates them. */
  function ValidMoves(st: State, p: Side): (ms: seq<Move>)
  {
    if st.ToPlace(p) > 0 then Targets(PlaceOrigin, Pieces(st.cells, 0, 0))
    else if st.OnBoard(p) <= 3 then FlyMoves(Pieces(st.cells, p, 0), Pieces(st.cells, 0, 0))
    else StepMoves(st.cells, Pieces(st.cells, p, 0))
  }

  lemma {:induction false} FlyMovesMembership(froms: seq<int>, tos: seq<int>, m: Move)
    ensures m in FlyMoves(froms, tos) <==> m.from in froms && m.to in tos
  {
    if froms != [] {
      FlyMovesMembership(froms[1..], tos, m);
      TargetsMembership(froms[0], tos, m);
      assert froms == [froms[0]] + froms[1..];
    }
  }

  lemma {:induction false} EmptyAmongMembership(cells: Cells, adj: seq<int>, x: int)
    requires forall i :: 0 <= i < |adj| ==> 0 <= adj[i] < NumCells
    ensures x in EmptyAmong(cells, adj) <==> x in adj && cells[x] == 0
  {
    if adj != [] {
      EmptyAmongMembership(cells, adj[1..], x);
      assert adj == [adj[0]] + adj[1..];
    }
  }

  lemma {:induction false} StepMovesMembership(cells: Cells, froms: seq<int>, m: Move)
    requires forall i :: 0 <= i < |froms| ==> 0 <= froms[i] < NumCells
    ensures m in StepMoves(cells, froms) <==>
      m.from in froms && 0 <= m.from < NumCells && m.to in Neighbours(m.from) && cells[m.to] == 0
  {
    if froms != [] {
      StepMovesMembership(cells, froms[1..], m);
      assert froms == [froms[0]] + froms[1..];
      EmptyAmongMembership(cells, Neighbours(froms[0]), m.to);
      TargetsMembership(froms[0], EmptyAmong(cells, Neighbours(froms[0])), m);
    }
  }

  /** The move list and the movement test agree. While p still has pieces to place, the list is
      exactly one placement per empty point (and no movement is valid); once p has finished placing,
      a move is listed exactly when the movement test accepts it. */
  lemma ValidMovesAgree(st: State, p: Side, m: Move)
    requires st.ToPlace(p) >= 0
    ensures st.ToPlace(p) > 0 ==> !IsValidMove(st, m.from, m.to, p)
    ensures st.ToPlace(p) > 0 ==> (m in ValidMoves(st, p) <==> m.from == PlaceOrigin && IsValidPlace(st, m.to))
    ensures st.ToPlace(p) == 0 ==> (m in ValidMoves(st, p) <==> IsValidMove(st, m.from, m.to, p))
  {
    if st.ToPlace(p) > 0 {
      TargetsMembership(PlaceOrigin, Pieces(st.cells, 0, 0), m);
      PiecesExact(st.cells, 0, 0, m.to);
    } else if st.OnBoard(p) <= 3 {
      FlyingAgrees(st, p, m);
    } else {
      SlidingAgrees(st, p, m);
    }
  }

  /** A side that may fly is offered every empty point from every one of its pieces. */
  lemma FlyingAgrees(st: State, p: Side, m: Move)
    requires st.ToPlace(p) == 0 && st.OnBoard(p) <= 3
    ensures m in ValidMoves(st, p) <==> IsValidMove(st, m.from, m.to, p)
  {
    FlyingList(st, p);
    FlyMovesOnBoard(st.cells, p, m);
    FlyingTest(st, p, m.from, m.to);
  }

  lemma FlyingList(st: State, p: Side)
    requires st.ToPlace(p) == 0 && st.OnBoard(p) <= 3
    ensures ValidMoves(st, p) == FlyMoves(Pieces(st.cells, p, 0), Pieces(st.cells, 0, 0))
  {
  }

  /** The flying list pairs every point holding p with every empty point. */
  lemma FlyMovesOnBoard(cells: Cells, p: Side, m: Move)
    ensures m in FlyMoves(Pieces(cells, p, 0), Pieces(cells, 0, 0)) <==>
      0 <= m.from < NumCells && 0 <= m.to < NumCells && cells[m.from] == p && cells[m.to] == 0
  {
    FlyMovesMembership(Pieces(cells, p, 0), Pieces(cells, 0, 0), m);
    PiecesExact(cells, p, 0, m.from);
    PiecesExact(cells, 0, 0, m.to);
  }

  /** For a side that may fly, the movement test asks only for an own piece and an empty point. */
  lemma FlyingTest(st: State, p: Side, from: int, to: int)
    requires st.ToPlace(p) == 0 && st.OnBoard(p) <= 3
    ensures IsValidMove(st, from, to, p) <==>
      0 <= from < NumCells && 0 <= to < NumCells && st.cells[from] == p && st.cells[to] == 0
  {
  }

  /** A side with more than three pieces is offered exactly the empty neighbours of its pieces. */
  lemma SlidingAgrees(st: State, p: Side, m: Move)
    requires st.ToPlace(p) == 0 && st.OnBoard(p) > 3
    ensures m in ValidMoves(st, p) <==> IsValidMove(st, m.from, m.to, p)
  {
    var ps := Pieces(st.cells, p, 0);
    StepMovesMembership(st.cells, ps, m);
    PiecesExact(st.cells, p, 0, m.from);
  }

  /** Every listed move is one the engine carries out. */
  lemma ValidMovesAreLegal(st: State, p: Side, m: Move)
    requires st.ToPlace(p) >= 0
    requires m in ValidMoves(st, p)
    ensures Legal(st, m, p)
    ensures m.from == PlaceOrigin ==> st.ToPlace(p) > 0
  {
    ValidMovesAgree(st, p, m);
  }

  /** A side never has more than 24 * 24 moves. */
  lemma ValidMovesBound(st: State, p: Side)
    ensures |ValidMoves(st, p)| <= 576
  {
    var ps := Pieces(st.cells, p, 0);
    var es := Pieces(st.cells, 0, 0);
    if st.ToPlace(p) > 0 {
      assert ValidMoves(st, p) == Targets(PlaceOrigin, es);
    } else if st.OnBoard(p) <= 3 {
      assert ValidMoves(st, p) == FlyMoves(ps, es);
      FlyMovesLength(ps, es);
      ProductBound(|ps|, |es|);
    } else {
      assert ValidMoves(st, p) == StepMoves(st.cells, ps);
    }
  }

  lemma {:induction false} FlyMovesLength(froms: seq<int>, tos: seq<int>)
    ensures |FlyMoves(froms, tos)| == |froms| * |tos|
  {
    if froms != [] {
      FlyMovesLength(froms[1..], tos);
      assert |froms| * |tos| == (|froms| - 1) * |tos| + |tos|;
    }
  }

  lemma {:induction false} ProductBound(a: nat, b: nat)
    requires a <= 24 && b <= 24
    ensures a * b <= 576
    decreases a
  {
    if a > 0 {
      ProductBound(a - 1, b);
      assert a * b == (a - 1) * b + b;
    }
  }

  // ---------------------------------------------------------------------------
  // State changes

  /** The state after placing or moving a piece of p: the destination holds p's piece, a slide
      or flight empties its origin (no other point changes: ApplyFrame), and a placement moves one
      of p's pieces from the pool to the board; no other counter changes. */
  function Apply(st: State, m: Move, p: Side): (r: State)
    requires Legal(st, m, p)
    ensures r.cells[m.to] == p
    ensures m.from != PlaceOrigin ==> 0 <= m.from < NumCells && m.from != m.to && r.cells[m.from] == 0
    ensures m.from == PlaceOrigin ==> r.ToPlace(p) == st.ToPlace(p) - 1 && r.OnBoard(p) == st.OnBoard(p) + 1
    ensures m.from != PlaceOrigin ==> r.ToPlace(p) == st.ToPlace(p) && r.OnBoard(p) == st.OnBoard(p)
    ensures r.ToPlace(Opponent(p)) == st.ToPlace(Opponent(p)) && r.OnBoard(Opponent(p)) == st.OnBoard(Opponent(p))
  {
    if m.from == PlaceOrigin then
      st.(cells := st.cells[m.to := p]).WithCounters(p, st.ToPlace(p) - 1, st.OnBoard(p) + 1)
    else
      st.(cells := st.cells[m.from := 0][m.to := p])
  }

  /** Placing or moving a piece changes no point but the destination and the origin. */
  lemma ApplyFrame(st: State, m: Move, p: Side, q: Index)
    requires Legal(st, m, p)
    requires q != m.to && q != m.from
    ensures Apply(st, m, p).cells[q] == st.cells[q]
  {
  }

  /** make_move on board and counters: a legal move is applied and reports whether the piece
      that arrived at the destination completes a mill; anything else changes nothing. */
  function MakeMove(st: State, m: Move, p: Side): (r: (State, bool))
    ensures !Legal(st, m, p) ==> r == (st, false)
    ensures Legal(st, m, p) ==> r.0.cells[m.to] == p && (r.1 <==> FormsMill(r.0.cells, m.to, p))
  {
    if Legal(st, m, p) then
      var after := Apply(st, m, p);
      (after, FormsMill(after.cells, m.to, p))
    else (st, false)
  }

  /** Removing the piece at pos from the board and from its owner's on-board count; pieces
      still to place are untouched, so the loss is permanent. */
  function Capture(st: State, pos: Index, owner: Side): (r: State)
  {
    st.(cells := st.cells[pos := 0]).WithCounters(owner, st.ToPlace(owner), st.OnBoard(owner) - 1)
  }

  /** perform_removal on board and counters: a valid capture is carried out, anything else changes nothing. */
  function PerformRemoval(st: State, pos: int, remover: Side): (r: State)
    ensures IsValidRemoval(st.cells, pos, remover) ==>
      0 <= pos < NumCells && st.cells[pos] == Opponent(remover) &&
      r.cells == st.cells[pos := 0] &&
      r.OnBoard(Opponent(remover)) == st.OnBoard(Opponent(remover)) - 1 &&
      r.ToPlace(Opponent(remover)) == st.ToPlace(Opponent(remover)) &&
      r.OnBoard(remover) == st.OnBoard(remover) && r.ToPlace(remover) == st.ToPlace(remover)
    ensures !IsValidRemoval(st.cells, pos, remover) ==> r == st
  {
    if IsValidRemoval(st.cells, pos, remover) then Capture(st, pos, Opponent(remover)) else st
  }

  /** undo_move on board and counters, branch for branch: first a recorded capture is put back
      (when its point is empty), then a placement is taken back or a movement reversed. */
  function UndoMove(st: State, details: Option<Details>, p: Side): State
  {
    match details
    case None => st
    case Some(d) => TakeBack(PutBackCaptured(st, d.removed, Opponent(p)), d, p)
  }

  /** The first half of undo_move: the recorded capture of a piece of `owner` is put back when
      its point is on the board and empty. */
  function PutBackCaptured(st: State, removed: Option<int>, owner: Side): State
  {
    if removed.Some? && 0 <= removed.value <= 23 && st.cells[removed.value] == 0 then
      st.(cells := st.cells[removed.value := owner]).WithCounters(owner, st.ToPlace(owner), st.OnBoard(owner) + 1)
    else st
  }

  /** The second half of undo_move: a placement of p is taken back into the pool, a movement
      sent back to its origin when that is empty; a bomb record changes nothing. */
  function TakeBack(st: State, d: Details, p: Side): State
  {
    if d.from == PlaceOrigin then
      if 0 <= d.to <= 23 && st.cells[d.to] == p then
        st.(cells := st.cells[d.to := 0]).WithCounters(p, st.ToPlace(p) + 1, st.OnBoard(p) - 1)
      else st
    else if d.from != BombOrigin then
      if 0 <= d.to <= 23 && st.cells[d.to] == p then
        var cleared := st.cells[d.to := 0];
        if 0 <= d.from <= 23 && cleared[d.from] == 0 then st.(cells := cleared[d.from := p])
        else st.(cells := cleared)
      else st
    else st
  }

  /** Undoing the record that make_move leaves restores board and all four counters. */
  lemma MakeUndoRoundTrip(st: State, m: Move, p: Side)
    requires Legal(st, m, p)
    ensures UndoMove(MakeMove(st, m, p).0, Some(Details(m.to, m.from, None)), p) == st
  {
    var after := MakeMove(st, m, p).0;
    var back := UndoMove(after, Some(Details(m.to, m.from, None)), p);
    if m.from == PlaceOrigin {
      assert back.cells == st.cells[m.to := p][m.to := 0];
    } else {
      assert back.cells == st.cells[m.from := 0][m.to := p][m.to := 0][m.from := p];
    }
    assert back.cells == st.cells;
  }

  /** A move followed by a capture is undone by the record that names the captured point:
      the opponent's piece and on-board count come back, then the move is reversed. */
  lemma MakeCaptureUndoRoundTrip(st: State, m: Move, p: Side, r: int)
    requires Legal(st, m, p)
    requires IsValidRemoval(MakeMove(st, m, p).0.cells, r, p)
    ensures UndoMove(PerformRemoval(MakeMove(st, m, p).0, r, p), Some(Details(m.to, m.from, Some(r))), p) == st
  {
    var after := MakeMove(st, m, p).0;
    var captured := PerformRemoval(after, r, p);
    var opponent := Opponent(p);
    var restored := captured.(cells := captured.cells[r := opponent])
      .WithCounters(opponent, captured.ToPlace(opponent), captured.OnBoard(opponent) + 1);
    assert restored.cells == after.cells;
    assert restored == after;
    assert PutBackCaptured(captured, Some(r), opponent) == after;
    MakeUndoRoundTrip(st, m, p);
    assert TakeBack(after, Details(m.to, m.from, Some(r)), p) == TakeBack(after, Details(m.to, m.from, None), p);
  }

  // ---------------------------------------------------------------------------
  // Game end and phase

  /** The engine's game-over test and the winner it records: pieces-below-three is checked
      for the player and then the computer, before no-moves for the player and then the computer. */
  function GameOver(st: State): (r: (bool, Winner))
    ensures r.0 <==> r.1 != NoWinner
  {
    var playerDone := st.playerToPlace == 0;
    var aiDone := st.aiToPlace == 0;
    if playerDone && st.playerOnBoard < 3 then (true, AiWon)
    else if aiDone && st.aiOnBoard < 3 then (true, PlayerWon)
    else if playerDone && ValidMoves(st, 1) == [] then (true, AiWon)
    else if aiDone && ValidMoves(st, 2) == [] then (true, PlayerWon)
    else (false, NoWinner)
  }

  /** Side s has lost: it has finished placing and is down to two pieces or cannot move. */
  predicate Lost(st: State, s: Side)
  {
    st.ToPlace(s) == 0 && (st.OnBoard(s) < 3 || ValidMoves(st, s) == [])
  }

  /** The game is over exactly when some side has lost; the winner is the computer when the
      player is down to two pieces, or when the player is blocked and the computer is not down to two. */
  lemma GameOverMeaning(st: State)
    ensures GameOver(st).0 <==> Lost(st, 1) || Lost(st, 2)
    ensures GameOver(st).1 == AiWon <==>
      (st.playerToPlace == 0 && st.playerOnBoard < 3) ||
      (Lost(st, 1) && !(st.aiToPlace == 0 && st.aiOnBoard < 3))
  {
  }

  /** The phase label: 1 while either side places, else 3 if either side may fly, else 2. */
  function Phase(st: State): (ph: int)
    ensures 1 <= ph <= 3
    ensures ph == 1 <==> st.playerToPlace != 0 || st.aiToPlace != 0
    ensures ph == 3 <==> st.playerToPlace == 0 && st.aiToPlace == 0 && (CanFly(st, 1) || CanFly(st, 2))
  {
    if st.playerToPlace == 0 && st.aiToPlace == 0 then
      (if st.playerOnBoard <= 3 || st.aiOnBoard <= 3 then 3 else 2)
    else 1
  }

  // ---------------------------------------------------------------------------
  // The piece-pool invariant

  /** A listed move keeps the piece-pool invariant: a placement moves one piece from the pool to the board. */
  lemma MovePreservesConsistency(st: State, m: Move, p: Side)
    requires Consistent(st)
    requires m in ValidMoves(st, p)
    ensures Consistent(MakeMove(st, m, p).0)
    ensures MakeMove(st, m, p).0.ToPlace(p) + MakeMove(st, m, p).0.OnBoard(p) == st.ToPlace(p) + st.OnBoard(p)
  {
    ValidMovesAreLegal(st, p, m);
    if m.from == PlaceOrigin {
      PlacementKeepsCounts(st, m.to, p);
    } else {
      MovementKeepsCounts(st, m.from, m.to, p);
    }
  }

  lemma PlacementKeepsCounts(st: State, to: int, p: Side)
    requires Consistent(st) && IsValidPlace(st, to) && st.ToPlace(p) > 0
    ensures Consistent(Apply(st, Move(to, PlaceOrigin), p))
  {
    CountUpdate(st.cells, to, p, p);
    CountUpdate(st.cells, to, p, Opponent(p));
  }

  lemma MovementKeepsCounts(st: State, from: int, to: int, p: Side)
    requires Consistent(st) && IsValidMove(st, from, to, p)
    ensures Consistent(Apply(st, Move(to, from), p))
  {
    assert 0 <= from < NumCells && 0 <= to < NumCells && st.cells[from] == p && st.cells[to] == 0;
    SlideKeepsCounts(st, from, to, p);
  }

  lemma SlideKeepsCounts(st: State, from: Index, to: Index, p: Side)
    requires Consistent(st) && st.cells[from] == p && st.cells[to] == 0
    ensures Consistent(st.(cells := st.cells[from := 0][to := p]))
  {
    SlideCount(st.cells, from, to, p, 1);
    SlideCount(st.cells, from, to, p, 2);
  }

  /** Lifting a piece of p and setting it down on an empty point leaves the count of every kind
      of point as it was. */
  lemma SlideCount(cells: Cells, from: Index, to: Index, p: Side, v: Cell)
    requires cells[from] == p && cells[to] == 0
    ensures Count(cells[from := 0][to := p], v) == Count(cells, v)
  {
    CountUpdate(cells, from, 0, v);
    CountUpdate(cells[from := 0], to, p, v);
  }

  /** A valid capture keeps the invariant and costs the opponent one piece for good:
      its on-board plus to-place total drops by one. */
  lemma CapturePreservesConsistency(st: State, pos: int, remover: Side)
    requires Consistent(st)
    requires IsValidRemoval(st.cells, pos, remover)
    ensures Consistent(PerformRemoval(st, pos, remover))
    ensures PerformRemoval(st, pos, remover).ToPlace(Opponent(remover)) + PerformRemoval(st, pos, remover).OnBoard(Opponent(remover))
         == st.ToPlace(Opponent(remover)) + st.OnBoard(Opponent(remover)) - 1
  {
    CountUpdate(st.cells, pos, 0, remover);
    CountUpdate(st.cells, pos, 0, Opponent(remover));
  }
}
