/**
 What one new tile does to the score of a board: it makes its own row and
 column more uneven, and it adds at most one land.
 */
module Placing {
  import opened Grid
  import opened SlideSteps
  import opened Lands
  import opened Minimax

  // ---------------------------------------------------------------------
  // Unevenness, line by line
  // ---------------------------------------------------------------------

  /** The difference to the nearest tile before. */
  function GapIn(s: seq<int>, k: nat): int
    requires k < |s|
  {
    var t := TargetIndex(s, k);
    if s[k] <= 0 || t < 0 then 0
    else if s[k] < s[t] then s[t] - s[k] else s[k] - s[t]
  }

  function Rough(s: seq<int>): int
    requires |s| == 4
  {
    GapIn(s, 0) + GapIn(s, 1) + GapIn(s, 2) + GapIn(s, 3)
  }

  /** By how much a tile u in place k makes a line more uneven. */
  function Rise(s: seq<int>, k: nat, u: int): int
    requires |s| == 4 && k < 4
  {
    Rough(s[k := u]) - Rough(s)
  }

  lemma GapAt(b: seq<int>, dir: int, l: int, k: int)
    requires |b| == 16 && IsDir(dir) && 0 <= l < 4 && 0 <= k < 4
    ensures Gap(b, LinePos(dir, l, k), dir) == GapIn(Line(b, dir, l), k)
  {
    hide Line, LinePos, LineOf, Depth;
    PlaceOf(dir, l, k);
    LineAt(b, dir, l, k);
    var t := TargetIndex(Line(b, dir, l), k);
    if t >= 0 {
      LineAt(b, dir, l, t);
    }
  }

  function RoughAlong(b: seq<int>, dir: int): int
    requires |b| == 16 && IsDir(dir)
  {
    Rough(Line(b, dir, 0)) + Rough(Line(b, dir, 1)) + Rough(Line(b, dir, 2)) + Rough(Line(b, dir, 3))
  }

  lemma FourMore(b: seq<int>, n: int)
    requires |b| == 16 && 0 <= n <= 12
    ensures Smoothness(b, n + 4) == Smoothness(b, n)
      - Gap(b, n, RIGHT) - Gap(b, n + 1, RIGHT) - Gap(b, n + 2, RIGHT) - Gap(b, n + 3, RIGHT)
      - Gap(b, n, DOWN) - Gap(b, n + 1, DOWN) - Gap(b, n + 2, DOWN) - Gap(b, n + 3, DOWN)
  {
    hide Gap;
    assert Smoothness(b, n + 2) == Smoothness(b, n + 1) - Gap(b, n + 1, RIGHT) - Gap(b, n + 1, DOWN);
    assert Smoothness(b, n + 3) == Smoothness(b, n + 2) - Gap(b, n + 2, RIGHT) - Gap(b, n + 2, DOWN);
  }

  lemma LineRough(b: seq<int>, dir: int, l: int)
    requires |b| == 16 && IsDir(dir) && 0 <= l < 4
    ensures Rough(Line(b, dir, l)) == Gap(b, LinePos(dir, l, 0), dir) + Gap(b, LinePos(dir, l, 1), dir)
      + Gap(b, LinePos(dir, l, 2), dir) + Gap(b, LinePos(dir, l, 3), dir)
  {
    hide Gap, GapIn, Line, LinePos;
    GapAt(b, dir, l, 0);
    GapAt(b, dir, l, 1);
    GapAt(b, dir, l, 2);
    GapAt(b, dir, l, 3);
  }

  lemma SmoothnessByLines(b: seq<int>)
    requires |b| == 16
    ensures -Smoothness(b, 16) == RoughAlong(b, RIGHT) + RoughAlong(b, DOWN)
  {
    hide Gap, Rough, Line, Smoothness;
    FourMore(b, 0);
    FourMore(b, 4);
    FourMore(b, 8);
    FourMore(b, 12);
    LineRough(b, RIGHT, 0);
    LineRough(b, RIGHT, 1);
    LineRough(b, RIGHT, 2);
    LineRough(b, RIGHT, 3);
    LineRough(b, DOWN, 0);
    LineRough(b, DOWN, 1);
    LineRough(b, DOWN, 2);
    LineRough(b, DOWN, 3);
    NoneYet(b);
  }

  lemma NoneYet(b: seq<int>)
    requires |b| == 16
    ensures Smoothness(b, 0) == 0
  {
  }

  lemma RoughAfter(b: seq<int>, dir: int, l: int, k: int, u: int)
    requires |b| == 16 && IsDir(dir) && 0 <= l < 4 && 0 <= k < 4
    ensures RoughAlong(b[LinePos(dir, l, k) := u], dir) == RoughAlong(b, dir) + Rise(Line(b, dir, l), k, u)
  {
    hide Rough, Line, LinePos;
    LineUpdate(b, dir, l, k, u, 0);
    LineUpdate(b, dir, l, k, u, 1);
    LineUpdate(b, dir, l, k, u, 2);
    LineUpdate(b, dir, l, k, u, 3);
  }

  /** The row and the column of a cell, each from its wall, and the cell's places on them. */
  function RowOf(b: seq<int>, p: int): (s: seq<int>)
    requires |b| == 16 && IsPos(p)
    ensures |s| == 4
  {
    Line(b, RIGHT, p / 4)
  }

  function ColumnOf(b: seq<int>, p: int): (s: seq<int>)
    requires |b| == 16 && IsPos(p)
    ensures |s| == 4
  {
    Line(b, DOWN, p % 4)
  }

  function Uneven(b: seq<int>, p: int, u: int): int
    requires |b| == 16 && IsPos(p)
  {
    Rise(RowOf(b, p), 3 - p % 4, u) + Rise(ColumnOf(b, p), 3 - p / 4, u)
  }

  lemma SmoothnessAfter(b: seq<int>, p: int, u: int)
    requires |b| == 16 && IsPos(p)
    ensures -Smoothness(b[p := u], 16) == -Smoothness(b, 16) + Uneven(b, p, u)
  {
    hide Smoothness, RoughAlong, Line, Rough;
    SmoothnessByLines(b);
    SmoothnessByLines(b[p := u]);
    assert LinePos(RIGHT, p / 4, 3 - p % 4) == p == LinePos(DOWN, p % 4, 3 - p / 4);
    RoughAfter(b, RIGHT, p / 4, 3 - p % 4, u);
    RoughAfter(b, DOWN, p % 4, 3 - p / 4, u);
  }

  // ---------------------------------------------------------------------
  // Lines of four
  // ---------------------------------------------------------------------

  predicate Bare(s: seq<int>) {
    forall i :: 0 <= i < |s| ==> s[i] == 0
  }

  predicate AllOnes(s: seq<int>) {
    forall i :: 0 <= i < |s| ==> s[i] == 0 || s[i] == 1
  }

  predicate NoOnes(s: seq<int>) {
    forall i :: 0 <= i < |s| ==> s[i] != 1
  }

  function Apart(x: int, y: int): int {
    if x < y then y - x else x - y
  }

  lemma RoughIs(s: seq<int>)
    requires |s| == 4 && NonNegative(s)
    ensures GapIn(s, 0) == 0
    ensures GapIn(s, 1) == if s[1] == 0 || s[0] == 0 then 0 else Apart(s[1], s[0])
    ensures GapIn(s, 2) == if s[2] == 0 then 0 else if s[1] != 0 then Apart(s[2], s[1])
      else if s[0] != 0 then Apart(s[2], s[0]) else 0
    ensures GapIn(s, 3) == if s[3] == 0 then 0 else if s[2] != 0 then Apart(s[3], s[2])
      else if s[1] != 0 then Apart(s[3], s[1]) else if s[0] != 0 then Apart(s[3], s[0]) else 0
  {
    assert TargetIndex(s, 0) == -1;
    assert TargetIndex(s, 1) == if s[0] != 0 then 0 else -1;
    assert TargetIndex(s, 2) == if s[1] != 0 then 1 else TargetIndex(s, 1);
    assert TargetIndex(s, 3) == if s[2] != 0 then 2 else TargetIndex(s, 2);
  }

  /** A line of ones is smooth for another one only; a line without ones is rougher for a one than for a two. */
  lemma RiseByKind(s: seq<int>, k: nat)
    requires |s| == 4 && k < 4 && NonNegative(s) && s[k] == 0
    ensures Rise(s, k, 1) >= 0 && Rise(s, k, 2) >= 0
    ensures Bare(s) ==> Rise(s, k, 1) == 0 && Rise(s, k, 2) == 0
    ensures AllOnes(s) ==> Rise(s, k, 1) == 0 && (Bare(s) || Rise(s, k, 2) > 0)
    ensures NoOnes(s) ==> Bare(s) || Rise(s, k, 1) > Rise(s, k, 2)
  {
    hide GapIn;
    RoughIs(s);
    RoughIs(s[k := 1]);
    RoughIs(s[k := 2]);
  }

  predicate Beside(s: seq<int>, k: nat, u: int) {
    k < |s| && ((k > 0 && s[k - 1] == u) || (k + 1 < |s| && s[k + 1] == u))
  }

  /** The line has tiles on both sides of k, and where its middle is bare they are a one and another. */
  predicate Straddles(s: seq<int>, k: nat)
    requires |s| == 4
  {
    && (exists i :: 0 <= i < k < 4 && s[i] != 0)
    && (exists j :: k < j < 4 && s[j] != 0)
    && (s[1] == 0 && s[2] == 0 ==> (s[0] == 1 <==> s[3] != 1))
  }

  /** A line that is smooth for both tiles at k, but for a tile that joins its neighbour, is bare or straddles k. */
  lemma SmoothForBoth(s: seq<int>, k: nat)
    requires |s| == 4 && k < 4 && NonNegative(s) && s[k] == 0 && !Bare(s)
    requires Rise(s, k, 1) <= 0 || Beside(s, k, 1)
    requires Rise(s, k, 2) <= 0 || Beside(s, k, 2)
    ensures Straddles(s, k)
  {
    hide GapIn;
    RoughIs(s);
    RoughIs(s[k := 1]);
    RoughIs(s[k := 2]);
  }

  /** Next to a one in an otherwise bare middle, another one changes nothing. */
  lemma BesideOne(s: seq<int>, k: nat)
    requires |s| == 4 && k < 4 && NonNegative(s) && s[1] == 0 && s[2] == 0 && (k == 1 || k == 2)
    requires if k == 1 then s[0] == 1 else s[3] == 1
    ensures Rise(s, k, 1) == 0
  {
    hide GapIn;
    RoughIs(s);
    RoughIs(s[k := 1]);
  }

  // ---------------------------------------------------------------------
  // Lands
  // ---------------------------------------------------------------------

  /** Some neighbour of p holds u. */
  predicate Joins(b: seq<int>, p: int, u: int)
    requires |b| == 16 && IsPos(p)
  {
    exists dir :: 0 <= dir < 4 && Neighbour(p, dir) != -1 && b[Neighbour(p, dir)] == u
  }

  lemma {:induction false} PathStays(b: seq<int>, p: int, u: int, q: int, r: int, n: nat)
    requires |b| == 16 && IsPos(p) && b[p] == 0 && IsPos(q) && b[q] != 0 && Path(b, q, r, n)
    ensures Path(b[p := u], q, r, n) && IsPos(r) && b[r] == b[q]
    decreases n
  {
    hide Neighbour;
    if n > 0 {
      var t :| Path(b, q, t, n - 1) && Linked(b, t, r);
      PathStays(b, p, u, q, t, n - 1);
      assert Linked(b[p := u], t, r);
    }
  }

  lemma {:induction false} PathWas(b: seq<int>, p: int, u: int, q: int, r: int, n: nat)
    requires |b| == 16 && IsPos(p) && Path(b[p := u], q, r, n) && !Connected(b[p := u], q, p)
    ensures Path(b, q, r, n)
    decreases n
  {
    hide Neighbour;
    assert r != p;
    if n > 0 {
      var t :| Path(b[p := u], q, t, n - 1) && Linked(b[p := u], t, r);
      PathWas(b, p, u, q, t, n - 1);
      assert t != p;
      assert Linked(b, t, r);
    }
  }

  /** A land the new tile is not part of was there before. */
  lemma ComponentWas(b: seq<int>, p: int, u: int, q: int)
    requires |b| == 16 && IsPos(p) && b[p] == 0 && IsPos(q) && b[q] != 0 && !Connected(b[p := u], q, p)
    ensures Component(b[p := u], q) == Component(b, q)
  {
    hide Path;
    forall r | 0 <= r < 16
      ensures Connected(b[p := u], q, r) <==> Connected(b, q, r)
    {
      if Connected(b[p := u], q, r) {
        var n: nat :| Path(b[p := u], q, r, n);
        PathWas(b, p, u, q, r, n);
      }
      if Connected(b, q, r) {
        var n: nat :| Path(b, q, r, n);
        PathStays(b, p, u, q, r, n);
      }
    }
  }

  /** So all lands but the new tile's own were there before. */
  lemma OthersWere(b: seq<int>, p: int, u: int)
    requires |b| == 16 && IsPos(p) && b[p] == 0 && u != 0
    ensures ComponentsBelow(b[p := u], 16) - {Component(b[p := u], p)} <= ComponentsBelow(b, 16)
    ensures Component(b[p := u], p) in ComponentsBelow(b[p := u], 16)
  {
    hide Connected;
    var after := b[p := u];
    forall c | c in ComponentsBelow(after, 16) && c != Component(after, p)
      ensures c in ComponentsBelow(b, 16)
    {
      var q :| 0 <= q < 16 && after[q] != 0 && c == Component(after, q);
      if Connected(after, q, p) {
        SameComponent(after, q, p);
      }
      ComponentWas(b, p, u, q);
    }
  }

  lemma WithoutOne<T>(s: set<T>, x: T)
    requires x in s
    ensures |s - {x}| == |s| - 1
  {
  }

  lemma LandBound(b: seq<int>, p: int, u: int)
    requires |b| == 16 && IsPos(p) && b[p] == 0 && u != 0
    ensures LandCount(b[p := u]) <= LandCount(b) + 1
  {
    hide Component, ComponentsBelow;
    OthersWere(b, p, u);
    WithoutOne(ComponentsBelow(b[p := u], 16), Component(b[p := u], p));
    SubsetCard(ComponentsBelow(b[p := u], 16) - {Component(b[p := u], p)}, ComponentsBelow(b, 16));
  }

  lemma {:induction false} SubsetCard<T>(a: set<T>, b: set<T>)
    requires a <= b
    ensures |a| <= |b|
  {
    assert b == a + (b - a);
  }

  /** A tile next to an equal one makes no new land. */
  lemma LandJoined(b: seq<int>, p: int, u: int)
    requires |b| == 16 && IsPos(p) && b[p] == 0 && u != 0 && Joins(b, p, u)
    ensures LandCount(b[p := u]) <= LandCount(b)
  {
    hide Connected, Neighbour;
    var after := b[p := u];
    var dir :| 0 <= dir < 4 && Neighbour(p, dir) != -1 && b[Neighbour(p, dir)] == u;
    var n := Neighbour(p, dir);
    var rest := ComponentsBelow(after, 16) - {Component(after, p)};
    OthersWere(b, p, u);
    ConnectedSelf(b, n);
    assert n in Component(b, n) && Component(b, n) in ComponentsBelow(b, 16);
    if Component(b, n) in rest {
      var q :| 0 <= q < 16 && after[q] != 0 && Component(b, n) == Component(after, q);
      assert Linked(after, p, n);
      LinkedBack(after, p, n);
      ConnectedStep(after, q, n, p);
      SameComponent(after, q, p);
      assert false;
    }
    WithoutOne(ComponentsBelow(after, 16), Component(after, p));
    WithoutOne(ComponentsBelow(b, 16), Component(b, n));
    SubsetCard(rest, ComponentsBelow(b, 16) - {Component(b, n)});
  }

  lemma Unreached(b: seq<int>, p: int, u: int, q: int)
    requires |b| == 16 && IsPos(p) && b[p] == 0 && u != 0 && !Joins(b, p, u) && IsPos(q) && b[q] != 0
    ensures !Connected(b[p := u], q, p)
  {
    hide Neighbour;
    if Connected(b[p := u], q, p) {
      var n: nat :| Path(b[p := u], q, p, n);
      var t :| Path(b[p := u], q, t, n - 1) && Linked(b[p := u], t, p);
      LinkedBack(b[p := u], t, p);
      NotItself(p);
    }
  }

  lemma NotItself(p: int)
    requires IsPos(p)
    ensures forall dir :: 0 <= dir < 4 ==> Neighbour(p, dir) != p
  {
  }

  /** A tile next to no equal one makes exactly one. */
  lemma LandNew(b: seq<int>, p: int, u: int)
    requires |b| == 16 && IsPos(p) && b[p] == 0 && u != 0 && !Joins(b, p, u)
    ensures LandCount(b[p := u]) == LandCount(b) + 1
  {
    hide Connected, Joins;
    var after := b[p := u];
    OthersWere(b, p, u);
    forall c | c in ComponentsBelow(b, 16)
      ensures c in ComponentsBelow(after, 16) && c != Component(after, p)
    {
      var q :| 0 <= q < 16 && b[q] != 0 && c == Component(b, q);
      Unreached(b, p, u, q);
      ComponentWas(b, p, u, q);
      ConnectedSelf(after, p);
      assert p in Component(after, p);
    }
    assert ComponentsBelow(after, 16) - {Component(after, p)} == ComponentsBelow(b, 16);
    WithoutOne(ComponentsBelow(after, 16), Component(after, p));
  }

  // ---------------------------------------------------------------------
  // Scores
  // ---------------------------------------------------------------------

  /** The score of the board as it is. */
  ghost function Before(b: seq<int>): int
    requires |b| == 16
  {
    -Smoothness(b, 16) + LandCount(b)
  }

  /** Placing a tile adds how uneven it is, and one unless it joins a neighbour; if it does, at most that. */
  lemma ScoreIs(b: seq<int>, p: Placement)
    requires Open(b, p)
    ensures Score(b, p) <= Before(b) + Uneven(b, p.pos, p.val) + 1
    ensures !Joins(b, p.pos, p.val) ==> Score(b, p) == Before(b) + Uneven(b, p.pos, p.val) + 1
    ensures Joins(b, p.pos, p.val) ==> Score(b, p) <= Before(b) + Uneven(b, p.pos, p.val)
  {
    hide Smoothness, Uneven, LandCount, Joins;
    SmoothnessAfter(b, p.pos, p.val);
    LandBound(b, p.pos, p.val);
    if Joins(b, p.pos, p.val) {
      LandJoined(b, p.pos, p.val);
    } else {
      LandNew(b, p.pos, p.val);
    }
  }

  // ---------------------------------------------------------------------
  // Both tiles
  // ---------------------------------------------------------------------

  /** The cells in line with a cell. */
  function Cross(p: int): (c: set<int>)
    requires IsPos(p)
  {
    set q | 0 <= q < 16 && (q / 4 == p / 4 || q % 4 == p % 4)
  }

  lemma LinesAreCross(b: seq<int>, p: int)
    requires |b| == 16 && IsPos(p)
    ensures forall i :: 0 <= i < 4 ==> RowOf(b, p)[i] == b[LinePos(RIGHT, p / 4, i)] && LinePos(RIGHT, p / 4, i) in Cross(p)
    ensures forall i :: 0 <= i < 4 ==> ColumnOf(b, p)[i] == b[LinePos(DOWN, p % 4, i)] && LinePos(DOWN, p % 4, i) in Cross(p)
  {
  }

  lemma NeighboursAreCross(p: int)
    requires IsPos(p)
    ensures forall dir :: 0 <= dir < 4 && Neighbour(p, dir) != -1 ==> Neighbour(p, dir) in Cross(p)
  {
  }

  predicate Isolated(b: seq<int>, p: int)
    requires |b| == 16 && IsPos(p)
  {
    Bare(RowOf(b, p)) && Bare(ColumnOf(b, p))
  }

  predicate SeesOne(b: seq<int>, p: int)
    requires |b| == 16 && IsPos(p)
  {
    exists q :: q in Cross(p) && b[q] == 1
  }

  predicate SeesMore(b: seq<int>, p: int)
    requires |b| == 16 && IsPos(p)
  {
    exists q :: q in Cross(p) && b[q] > 1
  }

  lemma LineKinds(b: seq<int>, p: int)
    requires IsBoard(b) && IsPos(p)
    ensures !SeesOne(b, p) ==> NoOnes(RowOf(b, p)) && NoOnes(ColumnOf(b, p))
    ensures !SeesMore(b, p) ==> AllOnes(RowOf(b, p)) && AllOnes(ColumnOf(b, p))
    ensures NonNegative(RowOf(b, p)) && NonNegative(ColumnOf(b, p))
    ensures b[p] == 0 ==> RowOf(b, p)[3 - p % 4] == 0 && ColumnOf(b, p)[3 - p / 4] == 0
    ensures !SeesOne(b, p) ==> !Joins(b, p, 1)
    ensures !SeesMore(b, p) ==> !Joins(b, p, 2)
  {
    hide RowOf, ColumnOf, Cross, Neighbour, LinePos;
    LinesAreCross(b, p);
    NeighboursAreCross(p);
    PlacesOf(b, p);
  }

  lemma PlacesOf(b: seq<int>, p: int)
    requires |b| == 16 && IsPos(p)
    ensures RowOf(b, p)[3 - p % 4] == b[p] == ColumnOf(b, p)[3 - p / 4]
  {
  }

  /** Where a one and a two are worth the same there is nothing in line, or both a one and a larger tile. */
  lemma TieSeesBoth(b: seq<int>, p: int)
    requires IsBoard(b) && IsPos(p) && b[p] == 0
    requires Score(b, Placement(p, 1)) == Score(b, Placement(p, 2))
    ensures Isolated(b, p) || (SeesOne(b, p) && SeesMore(b, p))
  {
    hide Score, Before, RowOf, ColumnOf, Joins, SeesOne, SeesMore, AllOnes, NoOnes, NonNegative, Rise;
    ScoreIs(b, Placement(p, 1));
    ScoreIs(b, Placement(p, 2));
    LineKinds(b, p);
    RiseByKind(RowOf(b, p), 3 - p % 4);
    RiseByKind(ColumnOf(b, p), 3 - p / 4);
  }
}
