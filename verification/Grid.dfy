/**
 The 2048 board: sixteen cells holding exponents, 0 for an empty one, and what
 a move does to each row or column, read from the wall the tiles slide to.
 */
module Grid {
  const UP: int := 0
  const RIGHT: int := 1
  const DOWN: int := 2
  const LEFT: int := 3

  predicate IsDir(dir: int) {
    0 <= dir < 4
  }

  predicate IsPos(pos: int) {
    0 <= pos < 16
  }

  predicate IsBoard(b: seq<int>) {
    |b| == 16 && forall p :: 0 <= p < 16 ==> b[p] >= 0
  }

  /** dir_pos: the cell next to each cell in each direction, or -1. */
  const DIR_POS: seq<seq<int>> := [
    [-1, 1, 4, -1], [-1, 2, 5, 0], [-1, 3, 6, 1], [-1, -1, 7, 2],
    [0, 5, 8, -1], [1, 6, 9, 4], [2, 7, 10, 5], [3, -1, 11, 6],
    [4, 9, 12, -1], [5, 10, 13, 8], [6, 11, 14, 9], [7, -1, 15, 10],
    [8, 13, -1, -1], [9, 14, -1, 12], [10, 15, -1, 13], [11, -1, -1, 14]]

  /** The same by arithmetic. */
  function Neighbour(pos: int, dir: int): (n: int)
    requires IsPos(pos) && IsDir(dir)
    ensures n == -1 || IsPos(n)
  {
    if dir == UP then (if pos < 4 then -1 else pos - 4)
    else if dir == RIGHT then (if pos % 4 == 3 then -1 else pos + 1)
    else if dir == DOWN then (if pos >= 12 then -1 else pos + 4)
    else (if pos % 4 == 0 then -1 else pos - 1)
  }

  lemma TableIsNeighbour(pos: int, dir: int)
    requires IsPos(pos) && IsDir(dir)
    ensures |DIR_POS| == 16 && |DIR_POS[pos]| == 4 && DIR_POS[pos][dir] == Neighbour(pos, dir)
  {
  }

  function Opposite(dir: int): (d: int)
    requires IsDir(dir)
    ensures IsDir(d)
  {
    (dir + 2) % 4
  }

  /** Being neighbours is mutual. */
  lemma NeighbourBack(pos: int, dir: int)
    requires IsPos(pos) && IsDir(dir) && Neighbour(pos, dir) != -1
    ensures Neighbour(Neighbour(pos, dir), Opposite(dir)) == pos
  {
  }

  // ---------------------------------------------------------------------
  // Lines
  // ---------------------------------------------------------------------

  /** The cell at distance k from the wall, in line l, for tiles sliding to dir. */
  function LinePos(dir: int, l: int, k: int): (pos: int)
    requires IsDir(dir) && 0 <= l < 4 && 0 <= k < 4
    ensures IsPos(pos)
  {
    if dir == UP then k * 4 + l
    else if dir == RIGHT then l * 4 + (3 - k)
    else if dir == DOWN then (3 - k) * 4 + l
    else l * 4 + k
  }

  /** Different places on the lines are different cells, and one step to the wall is the neighbour. */
  lemma LinePosInjective(dir: int, l: int, k: int, l': int, k': int)
    requires IsDir(dir) && 0 <= l < 4 && 0 <= k < 4 && 0 <= l' < 4 && 0 <= k' < 4
    ensures LinePos(dir, l, k) == LinePos(dir, l', k') <==> l == l' && k == k'
  {
  }

  lemma WallIsNeighbour(dir: int, l: int, k: int)
    requires IsDir(dir) && 0 <= l < 4 && 0 <= k < 4
    ensures Neighbour(LinePos(dir, l, k), dir) == if k == 0 then -1 else LinePos(dir, l, k - 1)
  {
  }

  lemma EveryCellOnALine(dir: int, pos: int) returns (l: int, k: int)
    requires IsDir(dir) && IsPos(pos)
    ensures 0 <= l < 4 && 0 <= k < 4 && LinePos(dir, l, k) == pos
  {
    if dir == UP {
      l, k := pos % 4, pos / 4;
    } else if dir == RIGHT {
      l, k := pos / 4, 3 - pos % 4;
    } else if dir == DOWN {
      l, k := pos % 4, 3 - pos / 4;
    } else {
      l, k := pos / 4, pos % 4;
    }
  }

  /** A row or column, from the wall. */
  function Line<T>(b: seq<T>, dir: int, l: int): (s: seq<T>)
    requires |b| >= 16 && IsDir(dir) && 0 <= l < 4
    ensures |s| == 4
  {
    [b[LinePos(dir, l, 0)], b[LinePos(dir, l, 1)], b[LinePos(dir, l, 2)], b[LinePos(dir, l, 3)]]
  }

  lemma LineAt<T>(b: seq<T>, dir: int, l: int, k: int)
    requires |b| >= 16 && IsDir(dir) && 0 <= l < 4 && 0 <= k < 4
    ensures Line(b, dir, l)[k] == b[LinePos(dir, l, k)]
  {
  }

  /** Writing one cell changes its line in one place, and no other line. */
  lemma LineUpdate<T>(b: seq<T>, dir: int, l: int, k: int, v: T, l': int)
    requires |b| >= 16 && IsDir(dir) && 0 <= l < 4 && 0 <= k < 4 && 0 <= l' < 4
    ensures Line(b[LinePos(dir, l, k) := v], dir, l') == if l' == l then Line(b, dir, l)[k := v] else Line(b, dir, l')
  {
    forall k' | 0 <= k' < 4
      ensures LinePos(dir, l, k) == LinePos(dir, l', k') <==> l == l' && k == k'
    {
      LinePosInjective(dir, l, k, l', k');
    }
  }

  /** A board is what its lines are. */
  lemma SameLinesSameBoard(a: seq<int>, b: seq<int>, dir: int)
    requires |a| == |b| == 16 && IsDir(dir)
    requires forall l :: 0 <= l < 4 ==> Line(a, dir, l) == Line(b, dir, l)
    ensures a == b
  {
    forall p | 0 <= p < 16
      ensures a[p] == b[p]
    {
      var l, k := EveryCellOnALine(dir, p);
      LineAt(a, dir, l, k);
      LineAt(b, dir, l, k);
    }
  }

  // ---------------------------------------------------------------------
  // Sliding
  // ---------------------------------------------------------------------

  predicate NonNegative(s: seq<int>) {
    forall i :: 0 <= i < |s| ==> s[i] >= 0
  }

  function DropZeros(s: seq<int>): (t: seq<int>)
    ensures |t| <= |s|
  {
    if s == [] then [] else (if s[0] == 0 then [] else [s[0]]) + DropZeros(s[1..])
  }

  /** Merges each equal adjacent pair once, from the wall. */
  function Merge(s: seq<int>): (t: seq<int>)
    ensures |t| <= |s|
  {
    if |s| < 2 then s
    else if s[0] == s[1] then [s[0] + 1] + Merge(s[2..])
    else [s[0]] + Merge(s[1..])
  }

  function Zeros(n: nat): (z: seq<int>)
    ensures |z| == n && forall i :: 0 <= i < n ==> z[i] == 0
  {
    seq(n, _ => 0)
  }

  /** What a move makes of a line: drop zeros, merge, pad with zeros. */
  function Slide(s: seq<int>): (t: seq<int>)
    ensures |t| == |s|
  {
    var m := Merge(DropZeros(s));
    m + Zeros(|s| - |m|)
  }

  /** The board after a move. */
  function Slid(b: seq<int>, dir: int): (b': seq<int>)
    requires IsBoard(b) && IsDir(dir)
    ensures |b'| == 16
  {
    var s := seq(4, (l: int) requires 0 <= l < 4 => Slide(Line(b, dir, l)));
    seq(16, (p: int) requires 0 <= p < 16 => s[LineOf(dir, p)][Depth(dir, p)])
  }

  function LineOf(dir: int, pos: int): (l: int)
    requires IsDir(dir) && IsPos(pos)
    ensures 0 <= l < 4
  {
    if dir == UP || dir == DOWN then pos % 4 else pos / 4
  }

  function Depth(dir: int, pos: int): (k: int)
    requires IsDir(dir) && IsPos(pos)
    ensures 0 <= k < 4
  {
    if dir == UP then pos / 4
    else if dir == RIGHT then 3 - pos % 4
    else if dir == DOWN then 3 - pos / 4
    else pos % 4
  }

  lemma PlaceOf(dir: int, l: int, k: int)
    requires IsDir(dir) && 0 <= l < 4 && 0 <= k < 4
    ensures LineOf(dir, LinePos(dir, l, k)) == l && Depth(dir, LinePos(dir, l, k)) == k
  {
  }

  lemma SlidLine(b: seq<int>, dir: int, l: int)
    requires IsBoard(b) && IsDir(dir) && 0 <= l < 4
    ensures Line(Slid(b, dir), dir, l) == Slide(Line(b, dir, l))
  {
    hide Slide, Line, LinePos, LineOf, Depth;
    var t := Slid(b, dir);
    forall k | 0 <= k < 4
      ensures Line(t, dir, l)[k] == Slide(Line(b, dir, l))[k]
    {
      LineAt(t, dir, l, k);
      PlaceOf(dir, l, k);
    }
  }

  /** A move keeps every cell non-negative. */
  lemma {:induction false} MergeNonNegative(s: seq<int>)
    requires NonNegative(s)
    ensures NonNegative(Merge(s))
    decreases |s|
  {
    if |s| >= 2 {
      MergeNonNegative(if s[0] == s[1] then s[2..] else s[1..]);
    }
  }

  lemma {:induction false} DropZerosPositive(s: seq<int>)
    requires NonNegative(s)
    ensures forall i :: 0 <= i < |DropZeros(s)| ==> DropZeros(s)[i] > 0
  {
    if s != [] {
      DropZerosPositive(s[1..]);
    }
  }

  lemma SlideNonNegative(s: seq<int>)
    requires NonNegative(s)
    ensures NonNegative(Slide(s))
  {
    DropZerosPositive(s);
    MergeNonNegative(DropZeros(s));
  }

  lemma SlidIsBoard(b: seq<int>, dir: int)
    requires IsBoard(b) && IsDir(dir)
    ensures IsBoard(Slid(b, dir))
  {
    hide Slide, Slid;
    var t := Slid(b, dir);
    forall p | 0 <= p < 16
      ensures t[p] >= 0
    {
      var l, k := EveryCellOnALine(dir, p);
      SlidLine(b, dir, l);
      SlideNonNegative(Line(b, dir, l));
      LineAt(t, dir, l, k);
    }
  }

  // ---------------------------------------------------------------------
  // A move that changes something leaves an empty cell
  // ---------------------------------------------------------------------

  lemma {:induction false} FullMergeIsNoMerge(s: seq<int>)
    ensures |Merge(s)| == |s| ==> Merge(s) == s
    decreases |s|
  {
    if |s| >= 2 {
      if s[0] != s[1] {
        FullMergeIsNoMerge(s[1..]);
      }
    }
  }

  lemma {:induction false} FullDropIsNoDrop(s: seq<int>)
    ensures |DropZeros(s)| == |s| ==> DropZeros(s) == s
  {
    if s != [] {
      FullDropIsNoDrop(s[1..]);
    }
  }

  lemma ChangedLineHasZero(s: seq<int>)
    requires Slide(s) != s
    ensures exists k :: 0 <= k < |s| && Slide(s)[k] == 0
  {
    var m := Merge(DropZeros(s));
    if |m| == |s| {
      FullDropIsNoDrop(s);
      FullMergeIsNoMerge(DropZeros(s));
    } else {
      assert Slide(s)[|m|] == 0;
    }
  }

  predicate HasEmpty(b: seq<int>)
    requires |b| == 16
  {
    exists p :: 0 <= p < 16 && b[p] == 0
  }

  predicate HasTile(b: seq<int>)
    requires |b| == 16
  {
    exists p :: 0 <= p < 16 && b[p] != 0
  }

  predicate CanMove(b: seq<int>, dir: int)
    requires IsBoard(b) && IsDir(dir)
  {
    Slid(b, dir) != b
  }

  lemma MovedHasEmpty(b: seq<int>, dir: int)
    requires IsBoard(b) && IsDir(dir) && CanMove(b, dir)
    ensures HasEmpty(Slid(b, dir))
  {
    hide Slid, Slide, Line;
    var t := Slid(b, dir);
    if forall l :: 0 <= l < 4 ==> Line(t, dir, l) == Line(b, dir, l) {
      SameLinesSameBoard(t, b, dir);
    }
    var l :| 0 <= l < 4 && Line(t, dir, l) != Line(b, dir, l);
    SlidLine(b, dir, l);
    ChangedLineHasZero(Line(b, dir, l));
    var k :| 0 <= k < 4 && Line(t, dir, l)[k] == 0;
    LineAt(t, dir, l, k);
  }

  // ---------------------------------------------------------------------
  // A move conserves the sum of the tiles
  // ---------------------------------------------------------------------

  function Pow2(n: nat): nat {
    if n == 0 then 1 else 2 * Pow2(n - 1)
  }

  /** The number on a tile; an empty cell counts nothing. */
  function Face(t: int): nat {
    if t <= 0 then 0 else Pow2(t)
  }

  function LineSum(s: seq<int>): nat {
    if s == [] then 0 else Face(s[0]) + LineSum(s[1..])
  }

  function BoardSum(b: seq<int>): nat
    requires |b| == 16
  {
    LineSum(b)
  }

  lemma {:induction false} LineSumAppend(a: seq<int>, b: seq<int>)
    ensures LineSum(a + b) == LineSum(a) + LineSum(b)
  {
    if a == [] {
      assert a + b == b;
    } else {
      assert (a + b)[1..] == a[1..] + b;
      LineSumAppend(a[1..], b);
    }
  }

  lemma {:induction false} DropZerosSum(s: seq<int>)
    ensures LineSum(DropZeros(s)) == LineSum(s)
  {
    if s != [] {
      DropZerosSum(s[1..]);
      LineSumAppend(if s[0] == 0 then [] else [s[0]], DropZeros(s[1..]));
      assert LineSum([s[0]]) == Face(s[0]) by { assert [s[0]][1..] == []; }
    }
  }

  lemma {:induction false} MergeSum(s: seq<int>)
    requires forall i :: 0 <= i < |s| ==> s[i] > 0
    ensures LineSum(Merge(s)) == LineSum(s)
    decreases |s|
  {
    if |s| >= 2 {
      if s[0] == s[1] {
        MergeSum(s[2..]);
        assert ([s[0] + 1] + Merge(s[2..]))[1..] == Merge(s[2..]);
        assert s[1..][1..] == s[2..];
      } else {
        MergeSum(s[1..]);
        assert ([s[0]] + Merge(s[1..]))[1..] == Merge(s[1..]);
      }
    }
  }

  lemma {:induction false} ZerosSum(n: nat)
    ensures LineSum(Zeros(n)) == 0
  {
    if n > 0 {
      ZerosSum(n - 1);
      assert Zeros(n)[1..] == Zeros(n - 1);
    }
  }

  lemma SlideSum(s: seq<int>)
    requires NonNegative(s)
    ensures LineSum(Slide(s)) == LineSum(s)
  {
    DropZerosPositive(s);
    DropZerosSum(s);
    MergeSum(DropZeros(s));
    var m := Merge(DropZeros(s));
    LineSumAppend(m, Zeros(|s| - |m|));
    ZerosSum(|s| - |m|);
  }

  lemma SumOfFour(s: seq<int>)
    requires |s| == 4
    ensures LineSum(s) == Face(s[0]) + Face(s[1]) + Face(s[2]) + Face(s[3])
  {
    hide Face;
    assert s[1..][1..] == s[2..] && s[2..][1..] == s[3..] && s[3..][1..] == [];
    assert LineSum(s[3..]) == Face(s[3]) + LineSum([]);
    assert LineSum(s[2..]) == Face(s[2]) + LineSum(s[3..]);
    assert LineSum(s[1..]) == Face(s[1]) + LineSum(s[2..]);
  }

  /** The board is the sum of its lines, whichever way they run. */
  lemma BoardSumByLines(b: seq<int>, dir: int)
    requires |b| == 16 && IsDir(dir)
    ensures BoardSum(b) == LineSum(Line(b, dir, 0)) + LineSum(Line(b, dir, 1))
                         + LineSum(Line(b, dir, 2)) + LineSum(Line(b, dir, 3))
  {
    hide Face, LineSum;
    forall l | 0 <= l < 4 {
      SumOfFour(Line(b, dir, l));
    }
    assert b == b[..4] + (b[4..8] + (b[8..12] + b[12..]));
    LineSumAppend(b[..4], b[4..8] + (b[8..12] + b[12..]));
    LineSumAppend(b[4..8], b[8..12] + b[12..]);
    LineSumAppend(b[8..12], b[12..]);
    SumOfFour(b[..4]);
    SumOfFour(b[4..8]);
    SumOfFour(b[8..12]);
    SumOfFour(b[12..]);
  }

  lemma MoveConservesSum(b: seq<int>, dir: int)
    requires IsBoard(b) && IsDir(dir)
    ensures BoardSum(Slid(b, dir)) == BoardSum(b)
  {
    hide Slid, Slide, LineSum, LinePos, BoardSum;
    BoardSumByLines(b, dir);
    BoardSumByLines(Slid(b, dir), dir);
    forall l | 0 <= l < 4
      ensures LineSum(Line(Slid(b, dir), dir, l)) == LineSum(Line(b, dir, l))
    {
      SlidLine(b, dir, l);
      SlideSum(Line(b, dir, l));
    }
  }

  lemma {:induction false} PowPositive(n: nat)
    ensures Pow2(n) > 0
  {
    if n > 0 {
      PowPositive(n - 1);
    }
  }

  lemma {:induction false} SumOfBlanks(s: seq<int>)
    requires NonNegative(s)
    ensures LineSum(s) == 0 <==> forall i :: 0 <= i < |s| ==> s[i] == 0
  {
    if s != [] {
      SumOfBlanks(s[1..]);
      assert forall i :: 0 < i < |s| ==> s[i] == s[1..][i - 1];
      PowPositive(s[0]);
    }
  }

  /** After a move that changes the board there is a tile. */
  lemma MovedHasTile(b: seq<int>, dir: int)
    requires IsBoard(b) && IsDir(dir) && CanMove(b, dir)
    ensures HasTile(Slid(b, dir))
  {
    hide Slid, LineSum;
    SlidIsBoard(b, dir);
    MoveConservesSum(b, dir);
    SumOfBlanks(b);
    SumOfBlanks(Slid(b, dir));
  }

  // ---------------------------------------------------------------------
  // When no move is possible
  // ---------------------------------------------------------------------

  /** A line that is full and has no equal neighbours stays. */
  lemma {:induction false} StuckMerge(s: seq<int>)
    requires forall i :: 0 <= i < |s| - 1 ==> s[i] != s[i + 1]
    ensures Merge(s) == s
    decreases |s|
  {
    if |s| >= 2 {
      assert forall i :: 0 <= i < |s| - 2 ==> s[1..][i] != s[1..][i + 1];
      StuckMerge(s[1..]);
    }
  }

  lemma {:induction false} NoZerosToDrop(s: seq<int>)
    requires forall i :: 0 <= i < |s| ==> s[i] != 0
    ensures DropZeros(s) == s
  {
    if s != [] {
      NoZerosToDrop(s[1..]);
    }
  }

  /** Full, and no two neighbours equal. */
  ghost predicate Stuck(b: seq<int>)
    requires |b| == 16
  {
    && (forall p :: 0 <= p < 16 ==> b[p] > 0)
    && (forall p, dir :: IsPos(p) && IsDir(dir) && Neighbour(p, dir) != -1 ==> b[Neighbour(p, dir)] != b[p])
  }

  lemma StuckCannotMove(b: seq<int>, dir: int)
    requires IsBoard(b) && IsDir(dir) && Stuck(b)
    ensures !CanMove(b, dir)
  {
    hide Slid, LinePos, Neighbour;
    forall l | 0 <= l < 4
      ensures Line(Slid(b, dir), dir, l) == Line(b, dir, l)
    {
      var s := Line(b, dir, l);
      SlidLine(b, dir, l);
      forall k | 0 <= k < 3
        ensures s[k] != s[k + 1]
      {
        WallIsNeighbour(dir, l, k + 1);
        LineAt(b, dir, l, k);
        LineAt(b, dir, l, k + 1);
      }
      NoZerosToDrop(s);
      StuckMerge(s);
    }
    SameLinesSameBoard(Slid(b, dir), b, dir);
  }
}
