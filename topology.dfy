/** The fixed geometry of the Nine Men's Morris board: 24 numbered points,
    the lines that join them, and the 16 rows of three that make a mill. */
module Topology {

  /** Number of points on the board. */
  const NumCells: int := 24

  /** A board point, numbered 0 (A7) to 23 (G1) row by row from the top. */
  type Index = i: int | 0 <= i < 24

  /** Neighbours of each point, in the order the engine visits them. */
  const Adjacency: seq<seq<int>> := [
    [1, 9], [0, 2, 4], [1, 14], [4, 10], [1, 3, 5, 7], [4, 13],
    [7, 11], [4, 6, 8], [7, 12], [0, 10, 21], [3, 9, 11, 18],
    [6, 10, 15], [8, 13, 17], [5, 12, 14, 20], [2, 13, 23],
    [11, 16], [15, 17, 19], [12, 16], [10, 19], [16, 18, 20, 22],
    [13, 19], [9, 22], [19, 21, 23], [14, 22]
  ]

  /** The 16 mill lines: eight horizontal rows, then eight vertical ones. */
  const Mills: seq<seq<int>> := [
    [0, 1, 2], [3, 4, 5], [6, 7, 8], [9, 10, 11], [12, 13, 14],
    [15, 16, 17], [18, 19, 20], [21, 22, 23], [0, 9, 21],
    [3, 10, 18], [6, 11, 15], [1, 4, 7], [16, 19, 22],
    [8, 12, 17], [5, 13, 20], [2, 14, 23]
  ]

  /** The neighbours of point p. */
  function Neighbours(p: Index): (ns: seq<int>)
    ensures 2 <= |ns| <= 4
    ensures forall i :: 0 <= i < |ns| ==> 0 <= ns[i] < NumCells && ns[i] != p
  {
    Adjacency[p]
  }

  /** Point p is one of the three points of mill line k. */
  predicate OnMill(p: int, k: int)
    requires 0 <= k < |Mills|
  {
    p == Mills[k][0] || p == Mills[k][1] || p == Mills[k][2]
  }

  /** Indices (into Mills) of the mill lines from k on that pass through p, in table order. */
  function MillsThrough(p: int, k: nat): (ks: seq<int>)
    requires k <= |Mills|
    decreases |Mills| - k
  {
    if k == |Mills| then []
    else if OnMill(p, k) then [k] + MillsThrough(p, k + 1)
    else MillsThrough(p, k + 1)
  }

  /** MillsThrough(p, k) lists exactly the mill lines from k on that contain p. */
  lemma {:induction false} MillsThroughExact(p: int, k: nat, j: int)
    requires k <= |Mills|
    ensures j in MillsThrough(p, k) <==> k <= j < |Mills| && OnMill(p, j)
    decreases |Mills| - k
  {
    if k < |Mills| {
      MillsThroughExact(p, k + 1, j);
      var rest := MillsThrough(p, k + 1);
      if OnMill(p, k) {
        assert MillsThrough(p, k) == [k] + rest;
        assert j in [k] + rest <==> j == k || j in rest;
      } else {
        assert MillsThrough(p, k) == rest;
      }
    }
  }

  /** OnMill is membership in the three-element mill list. */
  lemma OnMillIsMembership(p: int, k: int)
    requires 0 <= k < |Mills|
    ensures OnMill(p, k) <==> p in Mills[k]
  {
    MillsWellFormed();
    assert Mills[k] == [Mills[k][0], Mills[k][1], Mills[k][2]];
  }

  /** Every mill line is three distinct board points. */
  lemma MillsWellFormed()
    ensures |Mills| == 16
    ensures forall j :: 0 <= j < |Mills| ==>
      |Mills[j]| == 3 && Mills[j][0] != Mills[j][1] && Mills[j][1] != Mills[j][2] && Mills[j][0] != Mills[j][2]
    ensures forall j, i :: 0 <= j < |Mills| && 0 <= i < |Mills[j]| ==> 0 <= Mills[j][i] < NumCells
  {
  }

  /** Adjacency is symmetric: q is a neighbour of p exactly when p is a neighbour of q. */
  lemma AdjacencySymmetric(p: Index, q: Index)
    ensures q in Neighbours(p) <==> p in Neighbours(q)
  {
    EveryPointSymmetric();
    if q in Neighbours(p) {
      var i :| 0 <= i < |Neighbours(p)| && Neighbours(p)[i] == q;
      assert SymmetricAt(p);
    }
    if p in Neighbours(q) {
      var i :| 0 <= i < |Neighbours(q)| && Neighbours(q)[i] == p;
      assert SymmetricAt(q);
    }
  }

  /** Every neighbour of p lists p among its own neighbours. */
  predicate SymmetricAt(p: Index)
  {
    forall i :: 0 <= i < |Adjacency[p]| ==> p in Adjacency[Adjacency[p][i]]
  }

  lemma EveryPointSymmetric()
    ensures forall p: Index :: SymmetricAt(p)
  {
  }

  /** Every point lies on exactly two mill lines, one horizontal and one vertical. */
  lemma TwoMillsThroughEachPoint(p: Index)
    ensures |MillsThrough(p, 0)| == 2
  {
    HorizontalMill(p);
    VerticalMill(p);
  }

  /** The first eight mills are the rows: point p lies on exactly one of them. */
  lemma HorizontalMill(p: Index)
    ensures |MillsThrough(p, 0)| == 1 + |MillsThrough(p, 8)|
  {
    assert Mills[0] == [0, 1, 2];
    assert Mills[1] == [3, 4, 5];
    assert Mills[2] == [6, 7, 8];
    assert Mills[3] == [9, 10, 11];
    assert Mills[4] == [12, 13, 14];
    assert Mills[5] == [15, 16, 17];
    assert Mills[6] == [18, 19, 20];
    assert Mills[7] == [21, 22, 23];
    assert |MillsThrough(p, 7)| == (if OnMill(p, 7) then 1 else 0) + |MillsThrough(p, 8)|;
    assert |MillsThrough(p, 6)| == (if OnMill(p, 6) then 1 else 0) + |MillsThrough(p, 7)|;
    assert |MillsThrough(p, 5)| == (if OnMill(p, 5) then 1 else 0) + |MillsThrough(p, 6)|;
    assert |MillsThrough(p, 4)| == (if OnMill(p, 4) then 1 else 0) + |MillsThrough(p, 5)|;
    assert |MillsThrough(p, 3)| == (if OnMill(p, 3) then 1 else 0) + |MillsThrough(p, 4)|;
    assert |MillsThrough(p, 2)| == (if OnMill(p, 2) then 1 else 0) + |MillsThrough(p, 3)|;
    assert |MillsThrough(p, 1)| == (if OnMill(p, 1) then 1 else 0) + |MillsThrough(p, 2)|;
    assert |MillsThrough(p, 0)| == (if OnMill(p, 0) then 1 else 0) + |MillsThrough(p, 1)|;
  }

  /** The last eight mills are the columns: point p lies on exactly one of them. */
  lemma VerticalMill(p: Index)
    ensures |MillsThrough(p, 8)| == 1
  {
    assert Mills[8] == [0, 9, 21];
    assert Mills[9] == [3, 10, 18];
    assert Mills[10] == [6, 11, 15];
    assert Mills[11] == [1, 4, 7];
    assert Mills[12] == [16, 19, 22];
    assert Mills[13] == [8, 12, 17];
    assert Mills[14] == [5, 13, 20];
    assert Mills[15] == [2, 14, 23];
    assert |MillsThrough(p, 15)| == (if OnMill(p, 15) then 1 else 0) + |MillsThrough(p, 16)|;
    assert |MillsThrough(p, 14)| == (if OnMill(p, 14) then 1 else 0) + |MillsThrough(p, 15)|;
    assert |MillsThrough(p, 13)| == (if OnMill(p, 13) then 1 else 0) + |MillsThrough(p, 14)|;
    assert |MillsThrough(p, 12)| == (if OnMill(p, 12) then 1 else 0) + |MillsThrough(p, 13)|;
    assert |MillsThrough(p, 11)| == (if OnMill(p, 11) then 1 else 0) + |MillsThrough(p, 12)|;
    assert |MillsThrough(p, 10)| == (if OnMill(p, 10) then 1 else 0) + |MillsThrough(p, 11)|;
    assert |MillsThrough(p, 9)| == (if OnMill(p, 9) then 1 else 0) + |MillsThrough(p, 10)|;
    assert |MillsThrough(p, 8)| == (if OnMill(p, 8) then 1 else 0) + |MillsThrough(p, 9)|;
  }

  /** A sequence is its prefix before i, its element i, and its suffix after i. */
  lemma SplitAt<T>(s: seq<T>, i: nat)
    requires i < |s|
    ensures s == s[..i] + ([s[i]] + s[i + 1..])
  {
  }

  /** A prefix one element longer is the shorter prefix and that element. */
  lemma PrefixSnoc<T>(s: seq<T>, i: nat)
    requires i < |s|
    ensures s[..i + 1] == s[..i] + [s[i]]
  {
  }
}
