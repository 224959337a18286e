/**
 Connected groups of equal tiles, and what marking one of them means.
 */
module Lands {
  import opened Grid

  /** Neighbours with the same tile. */
  ghost predicate Linked(b: seq<int>, p: int, q: int)
    requires |b| == 16
  {
    IsPos(p) && IsPos(q) && b[p] == b[q] && exists dir :: IsDir(dir) && Neighbour(p, dir) == q
  }

  ghost predicate Path(b: seq<int>, p: int, q: int, n: nat)
    requires |b| == 16
    decreases n
  {
    if n == 0 then p == q && IsPos(p)
    else exists r :: Path(b, p, r, n - 1) && Linked(b, r, q)
  }

  ghost predicate Connected(b: seq<int>, p: int, q: int)
    requires |b| == 16
  {
    exists n: nat :: Path(b, p, q, n)
  }

  lemma LinkedBack(b: seq<int>, p: int, q: int)
    requires |b| == 16 && Linked(b, p, q)
    ensures Linked(b, q, p)
  {
    hide Neighbour;
    var dir :| IsDir(dir) && Neighbour(p, dir) == q;
    NeighbourBack(p, dir);
  }

  lemma ConnectedSelf(b: seq<int>, p: int)
    requires |b| == 16 && IsPos(p)
    ensures Connected(b, p, p)
  {
    assert Path(b, p, p, 0);
  }

  lemma ConnectedStep(b: seq<int>, p: int, q: int, r: int)
    requires |b| == 16 && Connected(b, p, q) && Linked(b, q, r)
    ensures Connected(b, p, r)
  {
    hide Linked;
    var n: nat :| Path(b, p, q, n);
    assert Path(b, p, r, n + 1);
  }

  lemma {:induction false} PathThenConnected(b: seq<int>, p: int, q: int, r: int, n: nat)
    requires |b| == 16 && Connected(b, p, q) && Path(b, q, r, n)
    ensures Connected(b, p, r)
    decreases n
  {
    hide Connected, Linked;
    if n > 0 {
      var t :| Path(b, q, t, n - 1) && Linked(b, t, r);
      PathThenConnected(b, p, q, t, n - 1);
      ConnectedStep(b, p, t, r);
    }
  }

  lemma ConnectedTrans(b: seq<int>, p: int, q: int, r: int)
    requires |b| == 16 && Connected(b, p, q) && Connected(b, q, r)
    ensures Connected(b, p, r)
  {
    var n: nat :| Path(b, q, r, n);
    PathThenConnected(b, p, q, r, n);
  }

  lemma {:induction false} PathBack(b: seq<int>, p: int, q: int, n: nat)
    requires |b| == 16 && Path(b, p, q, n)
    ensures Connected(b, q, p)
    decreases n
  {
    hide Connected, Linked;
    if n == 0 {
      ConnectedSelf(b, p);
    } else {
      var r :| Path(b, p, r, n - 1) && Linked(b, r, q);
      PathBack(b, p, r, n - 1);
      LinkedBack(b, r, q);
      PathEndsLinked(b, r, q);
      ConnectedSelf(b, q);
      ConnectedStep(b, q, q, r);
      ConnectedTrans(b, q, r, p);
    }
  }

  lemma PathEndsLinked(b: seq<int>, p: int, q: int)
    requires |b| == 16 && Linked(b, p, q)
    ensures IsPos(p) && IsPos(q)
  {
  }

  lemma ConnectedSym(b: seq<int>, p: int, q: int)
    requires |b| == 16 && Connected(b, p, q)
    ensures Connected(b, q, p)
  {
    var n: nat :| Path(b, p, q, n);
    PathBack(b, p, q, n);
  }

  /** The land a cell belongs to. */
  ghost function Component(b: seq<int>, p: int): (c: set<int>)
    requires |b| == 16
  {
    set q | 0 <= q < 16 && Connected(b, p, q)
  }

  lemma SameComponent(b: seq<int>, p: int, q: int)
    requires |b| == 16 && Connected(b, p, q)
    ensures Component(b, p) == Component(b, q)
  {
    hide Connected;
    ConnectedSym(b, p, q);
    forall r | 0 <= r < 16
      ensures Connected(b, p, r) <==> Connected(b, q, r)
    {
      if Connected(b, p, r) {
        ConnectedTrans(b, q, p, r);
      }
      if Connected(b, q, r) {
        ConnectedTrans(b, p, q, r);
      }
    }
  }

  /** The lands of the first n cells. */
  ghost function ComponentsBelow(b: seq<int>, n: int): (cs: set<set<int>>)
    requires |b| == 16 && 0 <= n <= 16
  {
    set p | 0 <= p < n && b[p] != 0 :: Component(b, p)
  }

  /** How many lands the board has. */
  ghost function LandCount(b: seq<int>): nat
    requires |b| == 16
  {
    |ComponentsBelow(b, 16)|
  }

  /** A set that no link leaves holds everything connected to its members. */
  lemma {:induction false} ClosedHoldsPath(b: seq<int>, s: set<int>, p: int, q: int, n: nat)
    requires |b| == 16 && p in s && Path(b, p, q, n)
    requires forall x, y :: x in s && Linked(b, x, y) ==> y in s
    ensures q in s
    decreases n
  {
    hide Linked;
    if n > 0 {
      var r :| Path(b, p, r, n - 1) && Linked(b, r, q);
      ClosedHoldsPath(b, s, p, r, n - 1);
    }
  }

  lemma ClosedHoldsComponent(b: seq<int>, s: set<int>, p: int)
    requires |b| == 16 && p in s
    requires forall x, y :: x in s && Linked(b, x, y) ==> y in s
    ensures Component(b, p) <= s
  {
    hide Path, Linked;
    forall q | q in Component(b, p)
      ensures q in s
    {
      var n: nat :| Path(b, p, q, n);
      ClosedHoldsPath(b, s, p, q, n);
    }
  }

  // ---------------------------------------------------------------------
  // Marking
  // ---------------------------------------------------------------------

  /** A cell marked by a call that was not marked before it. */
  predicate Fresh(before: seq<bool>, after: seq<bool>, p: int)
    requires |before| == |after| >= 16
  {
    IsPos(p) && after[p] && !before[p]
  }

  /** Every neighbour of p that holds val is marked. */
  ghost predicate Surrounded(b: seq<int>, after: seq<bool>, p: int, val: int, dirs: int)
    requires |b| == 16 && |after| >= 16 && IsPos(p) && 0 <= dirs <= 4
  {
    forall dir :: 0 <= dir < dirs && IsPos(Neighbour(p, dir)) && b[Neighbour(p, dir)] == val ==> after[Neighbour(p, dir)]
  }

  /** What a call of Mark has done when it has looked in the first dirs directions. */
  ghost predicate MarkedBy(b: seq<int>, before: seq<bool>, after: seq<bool>, pos: int, val: int, dirs: int) {
    && |b| == 16 && |before| == |after| >= 16 && 0 <= dirs <= 4
    && (forall p :: 0 <= p < |before| && before[p] ==> after[p])
    && (forall p :: 16 <= p < |before| ==> after[p] == before[p])
    && (forall p :: Fresh(before, after, p) ==> b[p] == val && Connected(b, pos, p))
    && (forall p :: Fresh(before, after, p) && p != pos ==> Surrounded(b, after, p, val, 4))
    && (Fresh(before, after, pos) ==> Surrounded(b, after, pos, val, dirs))
    && (IsPos(pos) && b[pos] == val ==> after[pos])
    && (after != before ==> IsPos(pos) && b[pos] == val && !before[pos])
  }

  lemma MarkNothing(b: seq<int>, marked: seq<bool>, pos: int, val: int)
    requires |b| == 16 && |marked| >= 16 && !(IsPos(pos) && b[pos] == val && !marked[pos])
    ensures MarkedBy(b, marked, marked, pos, val, 4)
  {
  }

  lemma MarkStarts(b: seq<int>, before: seq<bool>, pos: int, val: int)
    requires |b| == 16 && |before| >= 16 && IsPos(pos) && b[pos] == val && !before[pos]
    ensures MarkedBy(b, before, before[pos := true], pos, val, 0)
  {
    ConnectedSelf(b, pos);
  }

  /** One more direction. */
  lemma MarkTurns(b: seq<int>, before: seq<bool>, mid: seq<bool>, after: seq<bool>, pos: int, val: int, dir: int)
    requires IsPos(pos) && IsDir(dir) && |b| == 16 && b[pos] == val
    requires MarkedBy(b, before, mid, pos, val, dir) && MarkedBy(b, mid, after, Neighbour(pos, dir), val, 4)
    requires |before| >= 16 && !before[pos]
    ensures MarkedBy(b, before, after, pos, val, dir + 1)
  {
    hide Connected, Neighbour;
    var n := Neighbour(pos, dir);
    if after != mid {
      ConnectedSelf(b, pos);
      ConnectedStep(b, pos, pos, n);
    }
    forall p | Fresh(before, after, p)
      ensures b[p] == val && Connected(b, pos, p)
      ensures p != pos ==> Surrounded(b, after, p, val, 4)
      ensures p == pos ==> Surrounded(b, after, p, val, dir + 1)
    {
      if mid[p] {
        assert Fresh(before, mid, p);
      } else {
        assert Fresh(mid, after, p);
        ConnectedTrans(b, pos, n, p);
        assert p != pos;
        assert Surrounded(b, after, p, val, 4);
      }
    }
  }

  /** The marked cells are the lands of the first n cells. */
  ghost predicate MarkedUpTo(b: seq<int>, marked: seq<bool>, n: int)
    requires |b| == 16 && |marked| >= 16 && 0 <= n <= 16
  {
    forall q :: IsPos(q) ==> (marked[q] <==> exists p :: 0 <= p < n && b[p] != 0 && Connected(b, p, q))
  }

  /** Marking from an unmarked cell marks its land, no more and no less. */
  lemma MarksComponent(b: seq<int>, before: seq<bool>, after: seq<bool>, i: int)
    requires |b| == 16 && |before| >= 16 && IsPos(i) && b[i] != 0 && !before[i]
    requires MarkedUpTo(b, before, i) && MarkedBy(b, before, after, i, b[i], 4)
    ensures |after| == |before|
    ensures forall q :: IsPos(q) ==> (after[q] <==> before[q] || q in Component(b, i))
  {
    hide Connected;
    var s := set q | 0 <= q < 16 && Fresh(before, after, q);
    forall x, y | x in s && Linked(b, x, y)
      ensures y in s
    {
      ConnectedStep(b, i, x, y);
      UnmarkedStaysOut(b, before, i, y);
      LinkIsSurrounded(b, after, x, y, b[i]);
    }
    ClosedHoldsComponent(b, s, i);
  }

  lemma LinkIsSurrounded(b: seq<int>, after: seq<bool>, x: int, y: int, val: int)
    requires |b| == 16 && |after| >= 16 && Linked(b, x, y) && b[x] == val && Surrounded(b, after, x, val, 4)
    ensures after[y]
  {
    hide Neighbour;
  }

  lemma UnmarkedStaysOut(b: seq<int>, before: seq<bool>, i: int, y: int)
    requires |b| == 16 && |before| >= 16 && IsPos(i) && !before[i] && IsPos(y)
    requires MarkedUpTo(b, before, i) && Connected(b, i, y)
    ensures !before[y]
  {
    hide Connected;
    if before[y] {
      var p :| 0 <= p < i && b[p] != 0 && Connected(b, p, y);
      ConnectedSym(b, i, y);
      ConnectedTrans(b, p, y, i);
    }
  }

  /** An unmarked cell starts a new land, and marking it is counting it. */
  lemma NewLand(b: seq<int>, before: seq<bool>, after: seq<bool>, i: int)
    requires |b| == 16 && |before| >= 16 && IsPos(i) && b[i] != 0 && !before[i]
    requires MarkedUpTo(b, before, i) && MarkedBy(b, before, after, i, b[i], 4)
    ensures MarkedUpTo(b, after, i + 1)
    ensures |ComponentsBelow(b, i + 1)| == |ComponentsBelow(b, i)| + 1
  {
    hide Connected, MarkedBy;
    MarksComponent(b, before, after, i);
    forall q | IsPos(q)
      ensures after[q] <==> exists p :: 0 <= p < i + 1 && b[p] != 0 && Connected(b, p, q)
    {
      if after[q] {
        assert before[q] || Connected(b, i, q);
      }
      if p :| 0 <= p < i + 1 && b[p] != 0 && Connected(b, p, q) {
        assert p == i ==> q in Component(b, i);
      }
    }
    assert ComponentsBelow(b, i + 1) == ComponentsBelow(b, i) + {Component(b, i)};
    NotCounted(b, before, i);
  }

  lemma NotCounted(b: seq<int>, before: seq<bool>, i: int)
    requires |b| == 16 && |before| >= 16 && IsPos(i) && !before[i] && MarkedUpTo(b, before, i)
    ensures Component(b, i) !in ComponentsBelow(b, i)
  {
    hide Connected;
    ConnectedSelf(b, i);
    assert i in Component(b, i);
    assert forall p :: 0 <= p < i && b[p] != 0 ==> !Connected(b, p, i) && i !in Component(b, p);
  }

  /** A marked cell belongs to a land that has been counted, and an empty cell to none. */
  lemma OldLand(b: seq<int>, marked: seq<bool>, i: int)
    requires |b| == 16 && |marked| >= 16 && IsPos(i) && (b[i] == 0 || marked[i])
    requires MarkedUpTo(b, marked, i)
    ensures MarkedUpTo(b, marked, i + 1)
    ensures ComponentsBelow(b, i + 1) == ComponentsBelow(b, i)
  {
    hide Connected;
    if b[i] != 0 {
      var p :| 0 <= p < i && b[p] != 0 && Connected(b, p, i);
      SameComponent(b, p, i);
      assert Component(b, i) in ComponentsBelow(b, i);
      assert ComponentsBelow(b, i + 1) == ComponentsBelow(b, i) + {Component(b, i)};
      forall q | IsPos(q) && Connected(b, i, q)
        ensures Connected(b, p, q)
      {
        ConnectedTrans(b, p, i, q);
      }
    }
  }

  lemma NothingMarked(b: seq<int>, marked: seq<bool>)
    requires |b| == 16 && |marked| >= 16 && forall p :: 0 <= p < |marked| ==> !marked[p]
    ensures MarkedUpTo(b, marked, 0) && ComponentsBelow(b, 0) == {}
  {
  }
}
