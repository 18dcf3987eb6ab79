/** The time-bomb overlay: the list of armed bombs, how a side's bombs tick down at the start
    of its turn, and what a detonation does to the board, the piece pools and the other bombs. */
module Bombs {
  import opened Topology
  import opened Rules

  /** Turns of its owner a freshly armed bomb waits before it detonates. */
  const BombInitialTimer: int := 3

  /** An armed bomb: its number, the side that armed it, the point it sits on, and the turns left. */
  datatype Bomb = Bomb(id: int, owner: Side, position: Index, timer: int)

  // ---------------------------------------------------------------------------
  // Looking bombs up

  /** Index of the first bomb from k on that sits on pos (any owner), or |bs| if there is none. */
  function FirstAt(bs: seq<Bomb>, pos: int, k: nat): (i: nat)
    requires k <= |bs|
    ensures k <= i <= |bs|
    ensures i < |bs| ==> bs[i].position == pos
    ensures forall j :: k <= j < i ==> bs[j].position != pos
    decreases |bs| - k
  {
    if k == |bs| then |bs|
    else if bs[k].position == pos then k
    else FirstAt(bs, pos, k + 1)
  }

  /** Index of the first bomb from k on that side p armed and that sits on pos, or |bs| if there is none. */
  function FirstOwnAt(bs: seq<Bomb>, pos: int, p: Side, k: nat): (i: nat)
    requires k <= |bs|
    ensures k <= i <= |bs|
    ensures i < |bs| ==> bs[i].position == pos && bs[i].owner == p
    ensures forall j :: k <= j < i ==> !(bs[j].position == pos && bs[j].owner == p)
    decreases |bs| - k
  {
    if k == |bs| then |bs|
    else if bs[k].position == pos && bs[k].owner == p then k
    else FirstOwnAt(bs, pos, p, k + 1)
  }

  /** Index of the first bomb from k on equal to b in every field, or |bs| if there is none. */
  function FirstEqual(bs: seq<Bomb>, b: Bomb, k: nat): (i: nat)
    requires k <= |bs|
    ensures k <= i <= |bs|
    ensures i < |bs| ==> bs[i] == b
    ensures forall j :: k <= j < i ==> bs[j] != b
    decreases |bs| - k
  {
    if k == |bs| then |bs|
    else if bs[k] == b then k
    else FirstEqual(bs, b, k + 1)
  }

  /** Some bomb sits on pos. */
  predicate Bombed(bs: seq<Bomb>, pos: int)
  {
    FirstAt(bs, pos, 0) < |bs|
  }

  lemma BombedMeaning(bs: seq<Bomb>, pos: int)
    ensures Bombed(bs, pos) <==> exists j :: 0 <= j < |bs| && bs[j].position == pos
  {
  }

  // ---------------------------------------------------------------------------
  // Taking a bomb off the list and moving one

  /** The list without element i. */
  function Without(bs: seq<Bomb>, i: nat): (r: seq<Bomb>)
    requires i < |bs|
    ensures |r| == |bs| - 1
    ensures multiset(r) + multiset{bs[i]} == multiset(bs)
  {
    assert bs == bs[..i] + [bs[i]] + bs[i + 1..];
    bs[..i] + bs[i + 1..]
  }

  /** Takes the first bomb on pos off the list, and returns the list left and the bomb taken. */
  function Detach(bs: seq<Bomb>, pos: int): (r: (seq<Bomb>, Option<Bomb>))
    ensures r.1.None? ==> r.0 == bs && !Bombed(bs, pos)
    ensures r.1.Some? ==>
      r.1.value.position == pos && r.1.value in bs &&
      |r.0| == |bs| - 1 && multiset(r.0) + multiset{r.1.value} == multiset(bs)
  {
    var i := FirstAt(bs, pos, 0);
    if i == |bs| then (bs, None) else (Without(bs, i), Some(bs[i]))
  }

  /** Moves the first bomb of p that sits on `from` to `to`; every other bomb stays as it was. */
  function Relocate(bs: seq<Bomb>, from: int, to: Index, p: Side): (r: seq<Bomb>)
    ensures |r| == |bs|
  {
    var i := FirstOwnAt(bs, from, p, 0);
    if i == |bs| then bs else bs[i := bs[i].(position := to)]
  }

  /** list.remove on a value that is in the list: the first equal element goes. */
  function RemoveValue(bs: seq<Bomb>, b: Bomb): (r: seq<Bomb>)
    ensures b in bs ==> |r| == |bs| - 1 && multiset(r) + multiset{b} == multiset(bs)
    ensures b !in bs ==> r == bs
  {
    var i := FirstEqual(bs, b, 0);
    if i == |bs| then bs else Without(bs, i)
  }

  // ---------------------------------------------------------------------------
  // What survives a relocation: the bombs without their positions

  /** A bomb with its position forgotten. */
  datatype Tag = Tag(id: int, owner: Side, timer: int)

  function TagOf(b: Bomb): Tag
  {
    Tag(b.id, b.owner, b.timer)
  }

  /** The bombs of a list, positions forgotten, as a multiset. */
  function Tags(bs: seq<Bomb>): multiset<Tag>
  {
    if bs == [] then multiset{} else multiset{TagOf(bs[0])} + Tags(bs[1..])
  }

  lemma {:induction false} TagsAppend(a: seq<Bomb>, b: seq<Bomb>)
    ensures Tags(a + b) == Tags(a) + Tags(b)
  {
    if a == [] {
      assert a + b == b;
    } else {
      assert (a + b)[1..] == a[1..] + b;
      TagsAppend(a[1..], b);
    }
  }

  lemma TagsSingle(b: Bomb)
    ensures Tags([b]) == multiset{TagOf(b)}
  {
    assert [b][1..] == [];
  }

  /** Overwriting element i with a bomb of the same tag keeps the tags. */
  lemma TagsUpdate(bs: seq<Bomb>, i: nat, b: Bomb)
    requires i < |bs| && TagOf(b) == TagOf(bs[i])
    ensures Tags(bs[i := b]) == Tags(bs)
  {
    SplitAt(bs, i);
    SplitAt(bs[i := b], i);
    assert bs[i := b][..i] == bs[..i] && bs[i := b][i + 1..] == bs[i + 1..];
    TagsMiddle(bs[..i], bs[i], bs[i + 1..]);
    TagsMiddle(bs[..i], b, bs[i + 1..]);
  }

  /** Taking element i out removes exactly its tag. */
  lemma TagsWithout(bs: seq<Bomb>, i: nat)
    requires i < |bs|
    ensures Tags(Without(bs, i)) + multiset{TagOf(bs[i])} == Tags(bs)
  {
    SplitAt(bs, i);
    TagsMiddle(bs[..i], bs[i], bs[i + 1..]);
  }

  /** The tags of a list with one bomb in the middle are those without it, plus its tag. */
  lemma TagsMiddle(front: seq<Bomb>, b: Bomb, back: seq<Bomb>)
    ensures Tags(front + back) + multiset{TagOf(b)} == Tags(front + ([b] + back))
  {
    TagsAppend(front, [b] + back);
    TagsAppend([b], back);
    TagsSingle(b);
    TagsAppend(front, back);
  }

  /** Relocation moves at most one bomb, and only the first of p on `from`: the tags are kept,
      the moved bomb lands on `to`, and every other bomb keeps its position. */
  lemma RelocateMeaning(bs: seq<Bomb>, from: int, to: Index, p: Side)
    ensures Tags(Relocate(bs, from, to, p)) == Tags(bs)
    ensures forall j :: 0 <= j < |bs| && j != FirstOwnAt(bs, from, p, 0) ==> Relocate(bs, from, to, p)[j] == bs[j]
    ensures FirstOwnAt(bs, from, p, 0) < |bs| ==>
      Relocate(bs, from, to, p)[FirstOwnAt(bs, from, p, 0)] == bs[FirstOwnAt(bs, from, p, 0)].(position := to)
  {
    var i := FirstOwnAt(bs, from, p, 0);
    if i < |bs| {
      TagsUpdate(bs, i, bs[i].(position := to));
    }
  }

  /** Detaching a bomb and appending it again gives back the same tags. */
  lemma DetachReattach(bs: seq<Bomb>, pos: int, rest: seq<Bomb>)
    requires Tags(rest) == Tags(Detach(bs, pos).0)
    ensures Detach(bs, pos).1.Some? ==> Tags(rest + [Detach(bs, pos).1.value]) == Tags(bs)
    ensures Detach(bs, pos).1.None? ==> Tags(rest) == Tags(bs)
  {
    var i := FirstAt(bs, pos, 0);
    if i < |bs| {
      TagsAppend(rest, [bs[i]]);
      TagsSingle(bs[i]);
      TagsWithout(bs, i);
    }
  }

  // ---------------------------------------------------------------------------
  // Ticking

  /** One bomb's turn: a bomb of p loses one turn, any other is untouched. */
  function TickOne(b: Bomb, p: Side): Bomb
  {
    if b.owner == p then b.(timer := b.timer - 1) else b
  }

  /** Every bomb of p loses one turn; the other side's bombs are untouched. */
  function Tick(bs: seq<Bomb>, p: Side): (r: seq<Bomb>)
    ensures |r| == |bs|
  {
    if bs == [] then [] else [TickOne(bs[0], p)] + Tick(bs[1..], p)
  }

  /** Only p's bombs change, and only in their timer, which drops by one. */
  lemma {:induction false} TickMeaning(bs: seq<Bomb>, p: Side, i: int)
    requires 0 <= i < |bs|
    ensures Tick(bs, p)[i] == TickOne(bs[i], p)
    ensures Tick(bs, p)[i].id == bs[i].id && Tick(bs, p)[i].owner == bs[i].owner
    ensures Tick(bs, p)[i].position == bs[i].position
    ensures bs[i].owner != p ==> Tick(bs, p)[i] == bs[i]
    ensures bs[i].owner == p ==> Tick(bs, p)[i].timer == bs[i].timer - 1
  {
    if i > 0 {
      TickMeaning(bs[1..], p, i - 1);
    }
  }

  /** The bombs of p whose timer has run out, in list order: the detonation queue. */
  function Due(bs: seq<Bomb>, p: Side): (q: seq<Bomb>)
    ensures |q| <= |bs|
  {
    if bs == [] then []
    else (if bs[0].owner == p && bs[0].timer <= 0 then [bs[0]] else []) + Due(bs[1..], p)
  }

  lemma {:induction false} DueMembership(bs: seq<Bomb>, p: Side, b: Bomb)
    ensures b in Due(bs, p) <==> b in bs && b.owner == p && b.timer <= 0
  {
    if bs != [] {
      DueMembership(bs[1..], p, b);
      assert bs == [bs[0]] + bs[1..];
    }
  }

  /** The queue of a list one bomb longer gains that bomb at the end when it is due. */
  lemma {:induction false} DueSnoc(bs: seq<Bomb>, b: Bomb, p: Side)
    ensures Due(bs + [b], p) == Due(bs, p) + (if b.owner == p && b.timer <= 0 then [b] else [])
    decreases |bs|
  {
    if bs != [] {
      assert (bs + [b])[1..] == bs[1..] + [b];
      DueSnoc(bs[1..], b, p);
    }
  }

  // ---------------------------------------------------------------------------
  // Detonation

  /** The blast reaching point q: a piece there is destroyed and goes back to its owner's pool
      (on-board count down by one, to-place count up by one), and the first bomb on q is disarmed. */
  function BlastPoint(st: State, bs: seq<Bomb>, q: Index): (r: (State, seq<Bomb>))
    ensures r.0.cells == st.cells[q := 0]
    ensures forall s: Side :: s == st.cells[q] ==> r.0.ToPlace(s) == st.ToPlace(s) + 1 && r.0.OnBoard(s) == st.OnBoard(s) - 1
    ensures forall s: Side :: s != st.cells[q] ==> r.0.ToPlace(s) == st.ToPlace(s) && r.0.OnBoard(s) == st.OnBoard(s)
    ensures st.cells[q] == 0 ==> r.1 == bs
    ensures st.cells[q] != 0 ==> r.1 == Detach(bs, q).0
  {
    assert st.cells[q] == 0 ==> st.cells[q := 0] == st.cells;
    if st.cells[q] == 0 then (st, bs)
    else
      var owner: Side := st.cells[q];
      (st.(cells := st.cells[q := 0]).WithCounters(owner, st.ToPlace(owner) + 1, st.OnBoard(owner) - 1),
       Detach(bs, q).0)
  }

  /** The blast reaching the points ns[k..] in turn. */
  function BlastFrom(st: State, bs: seq<Bomb>, ns: seq<int>, k: nat): (State, seq<Bomb>)
    requires k <= |ns|
    requires forall i :: 0 <= i < |ns| ==> 0 <= ns[i] < NumCells
    decreases |ns| - k
  {
    if k == |ns| then (st, bs)
    else
      var r := BlastPoint(st, bs, ns[k]);
      BlastFrom(r.0, r.1, ns, k + 1)
  }

  /** One point of the blast, and then the rest. */
  lemma BlastFromStep(st: State, bs: seq<Bomb>, ns: seq<int>, k: nat)
    requires k < |ns|
    requires forall i :: 0 <= i < |ns| ==> 0 <= ns[i] < NumCells
    ensures BlastFrom(st, bs, ns, k) ==
      BlastFrom(BlastPoint(st, bs, ns[k]).0, BlastPoint(st, bs, ns[k]).1, ns, k + 1)
  {
  }

  /** _detonate_bomb: the blast reaches every neighbour of the bomb's point in table order. */
  function Detonate(st: State, bs: seq<Bomb>, b: Bomb): (State, seq<Bomb>)
  {
    BlastFrom(st, bs, Neighbours(b.position), 0)
  }

  /** The queued bombs from k on go off in queue order, each where it was queued, whether or not
      an earlier blast in the same round has already disarmed it. */
  function DetonateAll(st: State, bs: seq<Bomb>, queue: seq<Bomb>, k: nat): (State, seq<Bomb>)
    requires k <= |queue|
    decreases |queue| - k
  {
    if k == |queue| then (st, bs)
    else
      var r := Detonate(st, bs, queue[k]);
      DetonateAll(r.0, r.1, queue, k + 1)
  }

  /** The queued bombs from k on are taken off the list, each only if it is still there. */
  function RemoveAll(bs: seq<Bomb>, queue: seq<Bomb>, k: nat): seq<Bomb>
    requires k <= |queue|
    decreases |queue| - k
  {
    if k == |queue| then bs
    else RemoveAll(if queue[k] in bs then RemoveValue(bs, queue[k]) else bs, queue, k + 1)
  }

  /** _handle_bomb_updates_and_detonations on board, counters and bomb list: p's bombs tick,
      the run-out ones detonate in list order and are then taken off; the flag says whether any did.
      After a round that fires, no run-out bomb is left and no bomb has been added. */
  function BombRound(st: State, bs: seq<Bomb>, p: Side): (r: (bool, State, seq<Bomb>))
    ensures r.0 <==> Due(Tick(bs, p), p) != []
    ensures !r.0 ==> r.1 == st && r.2 == Tick(bs, p)
    ensures r.0 ==> multiset(r.2) <= multiset(Tick(bs, p))
    ensures r.0 ==> forall x :: x in Due(Tick(bs, p), p) ==> x !in r.2
  {
    var ticked := Tick(bs, p);
    var queue := Due(ticked, p);
    if queue == [] then (false, st, ticked)
    else
      var d := DetonateAll(st, ticked, queue, 0);
      DetonateAllShrinks(st, ticked, queue, 0);
      RemoveDue(ticked, d.1, p);
      (true, d.0, RemoveAll(d.1, queue, 0))
  }

  // ---------------------------------------------------------------------------
  // Which bombs a detonation takes off the list

  /** The blast over ns[k..] only takes bombs off the list. */
  lemma {:induction false} BlastFromShrinks(st: State, bs: seq<Bomb>, ns: seq<int>, k: nat)
    requires k <= |ns|
    requires forall i :: 0 <= i < |ns| ==> 0 <= ns[i] < NumCells
    ensures multiset(BlastFrom(st, bs, ns, k).1) <= multiset(bs)
    decreases |ns| - k
  {
    if k < |ns| {
      var r := BlastPoint(st, bs, ns[k]);
      BlastFromStep(st, bs, ns, k);
      BlastFromShrinks(r.0, r.1, ns, k + 1);
      BlastPointShrinks(st, bs, ns[k]);
      SubsetTrans(multiset(BlastFrom(r.0, r.1, ns, k + 1).1), multiset(r.1), multiset(bs));
    }
  }

  /** The blast over ns[k..] takes off the list only bombs sitting on a point of ns[k..] that holds
      a piece when the blast starts: every other bomb keeps its multiplicity. */
  lemma {:induction false} BlastFromBombs(st: State, bs: seq<Bomb>, ns: seq<int>, k: nat, x: Bomb)
    requires k <= |ns|
    requires forall i :: 0 <= i < |ns| ==> 0 <= ns[i] < NumCells
    requires !(x.position in ns[k..] && st.cells[x.position] != 0)
    ensures multiset(BlastFrom(st, bs, ns, k).1)[x] == multiset(bs)[x]
    decreases |ns| - k
  {
    if k < |ns| {
      var r := BlastPoint(st, bs, ns[k]);
      BlastFromStep(st, bs, ns, k);
      BlastPointBombs(st, bs, ns[k], x);
      TailMember(ns, k, x.position);
      assert !(x.position in ns[k + 1..] && r.0.cells[x.position] != 0);
      BlastFromBombs(r.0, r.1, ns, k + 1, x);
    }
  }

  /** A point is in ns[k..] when it is ns[k] or in ns[k + 1..]. */
  lemma TailMember(ns: seq<int>, k: nat, v: int)
    requires k < |ns|
    ensures v in ns[k..] <==> v == ns[k] || v in ns[k + 1..]
  {
    assert ns[k..] == [ns[k]] + ns[k + 1..];
  }

  lemma SubsetTrans(a: multiset<Bomb>, b: multiset<Bomb>, c: multiset<Bomb>)
    requires a <= b && b <= c
    ensures a <= c
  {
  }

  /** The blast at q takes at most one bomb off the list, and only one sitting on q while q holds a
      piece; q is left empty. */
  lemma BlastPointBombs(st: State, bs: seq<Bomb>, q: Index, x: Bomb)
    ensures multiset(BlastPoint(st, bs, q).1) <= multiset(bs)
    ensures !(x.position == q && st.cells[q] != 0) ==> multiset(BlastPoint(st, bs, q).1)[x] == multiset(bs)[x]
  {
    BlastPointShrinks(st, bs, q);
    if st.cells[q] != 0 {
      var y := Detach(bs, q).1;
      if y.Some? {
        assert multiset(Detach(bs, q).0) + multiset{y.value} == multiset(bs);
      }
    }
  }

  lemma BlastPointShrinks(st: State, bs: seq<Bomb>, q: Index)
    ensures multiset(BlastPoint(st, bs, q).1) <= multiset(bs)
  {
    if st.cells[q] != 0 {
      var y := Detach(bs, q).1;
      if y.Some? {
        assert multiset(Detach(bs, q).0) + multiset{y.value} == multiset(bs);
      }
    }
  }

  /** The queued detonations from k on only take bombs off the list. */
  lemma {:induction false} DetonateAllShrinks(st: State, bs: seq<Bomb>, queue: seq<Bomb>, k: nat)
    requires k <= |queue|
    ensures multiset(DetonateAll(st, bs, queue, k).1) <= multiset(bs)
    decreases |queue| - k
  {
    if k < |queue| {
      var r := Detonate(st, bs, queue[k]);
      BlastFromShrinks(st, bs, Neighbours(queue[k].position), 0);
      DetonateAllShrinks(r.0, r.1, queue, k + 1);
      SubsetTrans(multiset(DetonateAll(r.0, r.1, queue, k + 1).1), multiset(r.1), multiset(bs));
    }
  }

  /** A bomb that is not next to any of the points of the queued bombs from k on keeps its
      multiplicity through their detonations. */
  lemma {:induction false} DetonateAllBombs(st: State, bs: seq<Bomb>, queue: seq<Bomb>, k: nat, x: Bomb)
    requires k <= |queue|
    requires forall j :: k <= j < |queue| ==> x.position !in Neighbours(queue[j].position)
    ensures multiset(DetonateAll(st, bs, queue, k).1)[x] == multiset(bs)[x]
    decreases |queue| - k
  {
    if k < |queue| {
      var r := Detonate(st, bs, queue[k]);
      assert Neighbours(queue[k].position)[0..] == Neighbours(queue[k].position);
      BlastFromBombs(st, bs, Neighbours(queue[k].position), 0, x);
      DetonateAllBombs(r.0, r.1, queue, k + 1, x);
    }
  }

  /** Taking the queued bombs from k off the list never adds a bomb. */
  lemma {:induction false} RemoveAllShrinks(bs: seq<Bomb>, queue: seq<Bomb>, k: nat)
    requires k <= |queue|
    ensures multiset(RemoveAll(bs, queue, k)) <= multiset(bs)
    decreases |queue| - k
  {
    if k < |queue| {
      var next := if queue[k] in bs then RemoveValue(bs, queue[k]) else bs;
      RemoveAllShrinks(next, queue, k + 1);
    }
  }

  /** Each queued copy of a bomb takes one copy of it off the list, while there is one left. */
  lemma {:induction false} RemoveAllCount(bs: seq<Bomb>, queue: seq<Bomb>, k: nat, x: Bomb)
    requires k <= |queue|
    ensures multiset(queue[k..])[x] <= multiset(bs)[x] ==>
      multiset(RemoveAll(bs, queue, k))[x] == multiset(bs)[x] - multiset(queue[k..])[x]
    ensures multiset(bs)[x] <= multiset(queue[k..])[x] ==> x !in RemoveAll(bs, queue, k)
    decreases |queue| - k
  {
    if k < |queue| {
      var next := if queue[k] in bs then RemoveValue(bs, queue[k]) else bs;
      RemoveAllCount(next, queue, k + 1, x);
      RemoveOneCount(bs, queue[k], x);
      QueueCount(queue, k, x);
    } else {
      assert queue[k..] == [];
    }
  }

  /** The copies of x in queue[k..]: those in queue[k + 1..], and one more when queue[k] is x. */
  lemma QueueCount(queue: seq<Bomb>, k: nat, x: Bomb)
    requires k < |queue|
    ensures multiset(queue[k..])[x] == multiset(queue[k + 1..])[x] + (if queue[k] == x then 1 else 0)
  {
    assert queue[k..] == [queue[k]] + queue[k + 1..];
  }

  /** One step of RemoveAll: a copy of b goes when there is one, and no other bomb changes. */
  lemma RemoveOneCount(bs: seq<Bomb>, b: Bomb, x: Bomb)
    ensures multiset(if b in bs then RemoveValue(bs, b) else bs)[x] ==
      if b == x && x in bs then multiset(bs)[x] - 1 else multiset(bs)[x]
  {
    if b in bs {
      assert multiset(RemoveValue(bs, b)) + multiset{b} == multiset(bs);
    }
  }

  /** The queue holds every run-out bomb of p as often as the list does, and nothing else. */
  lemma {:induction false} DueCount(bs: seq<Bomb>, p: Side, x: Bomb)
    ensures x.owner == p && x.timer <= 0 ==> multiset(Due(bs, p))[x] == multiset(bs)[x]
    ensures !(x.owner == p && x.timer <= 0) ==> x !in Due(bs, p)
  {
    if bs != [] {
      DueCount(bs[1..], p, x);
      assert bs == [bs[0]] + bs[1..];
      assert multiset(bs)[x] == multiset(bs[1..])[x] + (if bs[0] == x then 1 else 0);
    }
  }

  /** Removing the queue from what the blasts left of the list leaves no queued bomb behind. */
  lemma RemoveDue(ticked: seq<Bomb>, left: seq<Bomb>, p: Side)
    requires multiset(left) <= multiset(ticked)
    ensures multiset(RemoveAll(left, Due(ticked, p), 0)) <= multiset(ticked)
    ensures forall x :: x in Due(ticked, p) ==> x !in RemoveAll(left, Due(ticked, p), 0)
  {
    var queue := Due(ticked, p);
    RemoveAllShrinks(left, queue, 0);
    assert queue[0..] == queue;
    forall x | x in queue
      ensures x !in RemoveAll(left, queue, 0)
    {
      RemoveAllCount(left, queue, 0, x);
      DueCount(ticked, p, x);
      DueMembership(ticked, p, x);
    }
  }

  /** In a round that fires, a bomb that was not queued and does not sit next to any queued bomb's
      point is still on the list as often as after the tick. */
  lemma BombRoundKeepsDistant(st: State, bs: seq<Bomb>, p: Side, x: Bomb)
    requires x !in Due(Tick(bs, p), p)
    requires forall j :: 0 <= j < |Due(Tick(bs, p), p)| ==> x.position !in Neighbours(Due(Tick(bs, p), p)[j].position)
    ensures multiset(BombRound(st, bs, p).2)[x] == multiset(Tick(bs, p))[x]
  {
    var ticked := Tick(bs, p);
    var queue := Due(ticked, p);
    if queue != [] {
      var d := DetonateAll(st, ticked, queue, 0);
      DetonateAllBombs(st, ticked, queue, 0, x);
      RemoveAllCount(d.1, queue, 0, x);
      assert queue[0..] == queue;
    }
  }

  // ---------------------------------------------------------------------------
  // What a detonation keeps

  /** A blast neither creates nor destroys pieces of a side: what leaves the board returns to the
      pool, so each side's on-board plus to-place total, and the invariant, are kept. */
  lemma BlastPointKeeps(st: State, bs: seq<Bomb>, q: Index)
    requires Consistent(st)
    ensures Consistent(BlastPoint(st, bs, q).0)
    ensures forall s: Side :: BlastPoint(st, bs, q).0.ToPlace(s) + BlastPoint(st, bs, q).0.OnBoard(s) == st.ToPlace(s) + st.OnBoard(s)
  {
    BlastPointSide(st, bs, q, 1);
    BlastPointSide(st, bs, q, 2);
    forall s: Side
      ensures BlastPoint(st, bs, q).0.ToPlace(s) + BlastPoint(st, bs, q).0.OnBoard(s) == st.ToPlace(s) + st.OnBoard(s)
    {
      BlastPointSide(st, bs, q, s);
    }
  }

  /** One side's part of the blast at q: its invariant and its total are kept. */
  lemma BlastPointSide(st: State, bs: seq<Bomb>, q: Index, s: Side)
    requires SideConsistent(st, s)
    ensures SideConsistent(BlastPoint(st, bs, q).0, s)
    ensures BlastPoint(st, bs, q).0.ToPlace(s) + BlastPoint(st, bs, q).0.OnBoard(s) == st.ToPlace(s) + st.OnBoard(s)
  {
    CountUpdate(st.cells, q, 0, s);
  }

  lemma {:induction false} BlastFromKeeps(st: State, bs: seq<Bomb>, ns: seq<int>, k: nat)
    requires k <= |ns|
    requires forall i :: 0 <= i < |ns| ==> 0 <= ns[i] < NumCells
    requires Consistent(st)
    ensures Consistent(BlastFrom(st, bs, ns, k).0)
    ensures forall s: Side :: BlastFrom(st, bs, ns, k).0.ToPlace(s) + BlastFrom(st, bs, ns, k).0.OnBoard(s) == st.ToPlace(s) + st.OnBoard(s)
    ensures |BlastFrom(st, bs, ns, k).1| <= |bs|
    decreases |ns| - k
  {
    if k < |ns| {
      var r := BlastPoint(st, bs, ns[k]);
      BlastPointKeeps(st, bs, ns[k]);
      BlastFromKeeps(r.0, r.1, ns, k + 1);
    }
  }

  /** The blast empties exactly the points ns[k..] and leaves every other point as it was. */
  lemma {:induction false} BlastFromCells(st: State, bs: seq<Bomb>, ns: seq<int>, k: nat, x: Index)
    requires k <= |ns|
    requires forall i :: 0 <= i < |ns| ==> 0 <= ns[i] < NumCells
    ensures x in ns[k..] ==> BlastFrom(st, bs, ns, k).0.cells[x] == 0
    ensures x !in ns[k..] ==> BlastFrom(st, bs, ns, k).0.cells[x] == st.cells[x]
    decreases |ns| - k
  {
    if k < |ns| {
      var r := BlastPoint(st, bs, ns[k]);
      assert r.0.cells == st.cells[ns[k] := 0];
      BlastFromCells(r.0, r.1, ns, k + 1, x);
      assert ns[k..] == [ns[k]] + ns[k + 1..];
      if x == ns[k] && x !in ns[k + 1..] {
        assert r.0.cells[x] == 0;
      }
    }
  }

  /** A detonation empties every neighbour of the bomb's point and leaves the bomb's own point and
      every other point untouched, and keeps each side's piece total. It only takes bombs off the
      list, and every bomb that does not sit on an occupied neighbour of the point stays. */
  lemma DetonateMeaning(st: State, bs: seq<Bomb>, b: Bomb, x: Index, y: Bomb)
    requires Consistent(st)
    ensures Consistent(Detonate(st, bs, b).0)
    ensures forall s: Side :: Detonate(st, bs, b).0.ToPlace(s) + Detonate(st, bs, b).0.OnBoard(s) == st.ToPlace(s) + st.OnBoard(s)
    ensures x in Neighbours(b.position) ==> Detonate(st, bs, b).0.cells[x] == 0
    ensures x !in Neighbours(b.position) ==> Detonate(st, bs, b).0.cells[x] == st.cells[x]
    ensures Detonate(st, bs, b).0.cells[b.position] == st.cells[b.position]
    ensures multiset(Detonate(st, bs, b).1) <= multiset(bs)
    ensures !(y.position in Neighbours(b.position) && st.cells[y.position] != 0) ==>
      multiset(Detonate(st, bs, b).1)[y] == multiset(bs)[y]
  {
    var ns := Neighbours(b.position);
    BlastFromKeeps(st, bs, ns, 0);
    BlastFromCells(st, bs, ns, 0, x);
    BlastFromCells(st, bs, ns, 0, b.position);
    BlastFromShrinks(st, bs, ns, 0);
    assert ns[0..] == ns;
    if !(y.position in ns && st.cells[y.position] != 0) {
      BlastFromBombs(st, bs, ns, 0, y);
    }
  }

  lemma {:induction false} DetonateAllKeeps(st: State, bs: seq<Bomb>, queue: seq<Bomb>, k: nat)
    requires k <= |queue|
    requires Consistent(st)
    ensures Consistent(DetonateAll(st, bs, queue, k).0)
    ensures forall s: Side :: DetonateAll(st, bs, queue, k).0.ToPlace(s) + DetonateAll(st, bs, queue, k).0.OnBoard(s) == st.ToPlace(s) + st.OnBoard(s)
    decreases |queue| - k
  {
    if k < |queue| {
      var r := Detonate(st, bs, queue[k]);
      DetonateMeaning(st, bs, queue[k], 0, queue[k]);
      DetonateAllKeeps(r.0, r.1, queue, k + 1);
    }
  }

  /** A bomb round keeps the invariant and each side's piece total, whatever goes off. */
  lemma BombRoundKeeps(st: State, bs: seq<Bomb>, p: Side)
    requires Consistent(st)
    ensures Consistent(BombRound(st, bs, p).1)
    ensures forall s: Side :: BombRound(st, bs, p).1.ToPlace(s) + BombRound(st, bs, p).1.OnBoard(s) == st.ToPlace(s) + st.OnBoard(s)
  {
    var ticked := Tick(bs, p);
    var queue := Due(ticked, p);
    if queue != [] {
      DetonateAllKeeps(st, ticked, queue, 0);
    }
  }

  /** A round detonates something exactly when one of p's bombs had one turn left (or fewer). */
  lemma BombRoundFires(st: State, bs: seq<Bomb>, p: Side)
    ensures BombRound(st, bs, p).0 <==> exists i :: 0 <= i < |bs| && bs[i].owner == p && bs[i].timer <= 1
  {
    var ticked := Tick(bs, p);
    if BombRound(st, bs, p).0 {
      var b := Due(ticked, p)[0];
      DueMembership(ticked, p, b);
      var i :| 0 <= i < |ticked| && ticked[i] == b;
      TickMeaning(bs, p, i);
    }
    if exists i :: 0 <= i < |bs| && bs[i].owner == p && bs[i].timer <= 1 {
      var i :| 0 <= i < |bs| && bs[i].owner == p && bs[i].timer <= 1;
      TickMeaning(bs, p, i);
      DueMembership(ticked, p, ticked[i]);
    }
  }
}
