/**
 The in-place slide, one cell at a time: what a line looks like when its first
 c cells have been handled, and why the end result is Grid.Slide.
 */
module SlideSteps {
  import opened Grid

  /** The tiles placed so far, and whether the last of them came from a merge. */
  datatype Stack = Stack(acc: seq<int>, fused: bool)

  function Push(o: Stack, x: int): Stack {
    var n := |o.acc|;
    if x == 0 then o
    else if n > 0 && !o.fused && o.acc[n - 1] == x then Stack(o.acc[..n - 1] + [x + 1], true)
    else Stack(o.acc + [x], false)
  }

  function Feed(o: Stack, s: seq<int>): Stack
    decreases |s|
  {
    if s == [] then o else Feed(Push(o, s[0]), s[1..])
  }

  function Placed(s: seq<int>): Stack {
    Feed(Stack([], false), s)
  }

  lemma {:induction false} FeedSnoc(o: Stack, s: seq<int>, x: int)
    ensures Feed(o, s + [x]) == Push(Feed(o, s), x)
    decreases |s|
  {
    hide Push;
    if s == [] {
      assert (s + [x])[1..] == [];
    } else {
      assert (s + [x])[1..] == s[1..] + [x];
      FeedSnoc(Push(o, s[0]), s[1..], x);
    }
  }

  /** The tiles placed, and then the merged rest: the last placed tile may still merge. */
  function Finished(o: Stack, rest: seq<int>): seq<int> {
    var n := |o.acc|;
    if n == 0 || o.fused then o.acc + Merge(rest) else o.acc[..n - 1] + Merge([o.acc[n - 1]] + rest)
  }

  lemma MergePair(a: int, b: int, s: seq<int>)
    ensures Merge([a] + ([b] + s)) == if a == b then [a + 1] + Merge(s) else [a] + Merge([b] + s)
  {
    var t := [a] + ([b] + s);
    assert t[1..] == [b] + s && t[2..] == s;
  }

  lemma FinishedStep(o: Stack, x: int, rest: seq<int>)
    requires x != 0
    ensures Finished(o, [x] + rest) == Finished(Push(o, x), rest)
  {
    hide Merge;
    var n := |o.acc|;
    assert (o.acc + [x])[..n] == o.acc;
    if n > 0 && !o.fused {
      var last := o.acc[n - 1];
      MergePair(last, x, rest);
      assert o.acc == o.acc[..n - 1] + [last];
    }
  }

  /** Placing tiles with a merged mark is merging each equal pair once. */
  lemma {:induction false} FeedIsMerge(o: Stack, s: seq<int>)
    ensures Feed(o, s).acc == Finished(o, DropZeros(s))
    decreases |s|
  {
    hide Push;
    if s == [] {
      NothingLeft(o);
    } else {
      var x := s[0];
      FeedIsMerge(Push(o, x), s[1..]);
      if x != 0 {
        FinishedStep(o, x, DropZeros(s[1..]));
      } else {
        assert [] + DropZeros(s[1..]) == DropZeros(s[1..]);
        PushZero(o);
      }
    }
  }

  lemma PushZero(o: Stack)
    ensures Push(o, 0) == o
  {
  }

  lemma NothingLeft(o: Stack)
    ensures Finished(o, []) == o.acc
  {
    if o.acc != [] {
      assert [o.acc[|o.acc| - 1]] + [] == [o.acc[|o.acc| - 1]];
    }
  }

  lemma PlacedIsMerge(s: seq<int>)
    ensures Placed(s).acc == Merge(DropZeros(s))
  {
    FeedIsMerge(Stack([], false), s);
  }

  /** No more tiles than cells, and no empty ones among them. */
  lemma {:induction false} FeedBounds(o: Stack, s: seq<int>)
    requires NonNegative(s) && forall i :: 0 <= i < |o.acc| ==> o.acc[i] > 0
    ensures |Feed(o, s).acc| <= |o.acc| + |s|
    ensures forall i :: 0 <= i < |Feed(o, s).acc| ==> Feed(o, s).acc[i] > 0
    decreases |s|
  {
    if s != [] {
      FeedBounds(Push(o, s[0]), s[1..]);
    }
  }

  /** A line after its first c cells have been handled. */
  ghost predicate LineDone(was: seq<int>, now: seq<int>, merged: seq<bool>, c: nat) {
    && |was| == |now| == |merged| == 4 && c <= 4
    && var o := Placed(was[..c]);
      && |o.acc| <= c
      && now == o.acc + Zeros(c - |o.acc|) + was[c..]
      && (forall j :: |o.acc| <= j < 4 ==> !merged[j])
      && (o.acc != [] ==> merged[|o.acc| - 1] == o.fused)
  }

  /** Nothing has moved among the first c cells. */
  predicate Settled(was: seq<int>, c: nat)
    requires c <= |was|
  {
    var acc := Placed(was[..c]).acc;
    |acc| <= c && acc + Zeros(c - |acc|) == was[..c]
  }

  /** The nearest tile between cell k and the wall, or -1. */
  function TargetIndex(line: seq<int>, k: nat): (t: int)
    requires k <= |line|
    ensures -1 <= t < k
  {
    if k == 0 then -1 else if line[k - 1] != 0 then k - 1 else TargetIndex(line, k - 1)
  }

  lemma {:induction false} TargetIndexAt(line: seq<int>, k: nat, t: int)
    requires k <= |line| && -1 <= t < k
    requires t >= 0 ==> line[t] != 0
    requires forall j :: t < j < k ==> line[j] == 0
    ensures TargetIndex(line, k) == t
  {
    if k > t + 1 {
      TargetIndexAt(line, k - 1, t);
    }
  }

  lemma TargetIsLastPlaced(was: seq<int>, now: seq<int>, merged: seq<bool>, c: nat)
    requires NonNegative(was) && LineDone(was, now, merged, c) && c < 4
    ensures var o := Placed(was[..c]);
      && TargetIndex(now, c) == |o.acc| - 1
      && now[c] == was[c]
      && (o.acc != [] ==> now[|o.acc| - 1] == o.acc[|o.acc| - 1] && merged[|o.acc| - 1] == o.fused)
  {
    FeedBounds(Stack([], false), was[..c]);
    TargetIndexAt(now, c, |Placed(was[..c]).acc| - 1);
  }

  lemma NextPlaced(was: seq<int>, c: nat)
    requires c < |was|
    ensures Placed(was[..c + 1]) == Push(Placed(was[..c]), was[c])
  {
    hide Push;
    assert was[..c + 1] == was[..c] + [was[c]];
    FeedSnoc(Stack([], false), was[..c], was[c]);
  }

  /** The tile merges into the nearest one. */
  lemma MergeStep(was: seq<int>, now: seq<int>, merged: seq<bool>, c: nat)
    requires NonNegative(was) && LineDone(was, now, merged, c) && c < 4 && was[c] > 0
    requires var t := TargetIndex(now, c); t >= 0 && now[t] == now[c] && !merged[t]
    ensures var t := TargetIndex(now, c);
      LineDone(was, now[t := now[t] + 1][c := 0], merged[t := true], c + 1)
    ensures !Settled(was, c + 1)
  {
    hide Feed;
    TargetIsLastPlaced(was, now, merged, c);
    NextPlaced(was, c);
    var o, o' := Placed(was[..c]), Placed(was[..c + 1]);
    var t := |o.acc| - 1;
    assert was[c..] == [was[c]] + was[c + 1..];
    assert o'.acc == o.acc[t := was[c] + 1];
    assert now[t := now[t] + 1][c := 0] == o'.acc + Zeros(c + 1 - |o'.acc|) + was[c + 1..];
    var z := o'.acc + Zeros(c + 1 - |o'.acc|);
    assert z[c] == 0 && was[..c + 1][c] == was[c];
  }

  /** A tile that joins the placed ones: whether it has moved. */
  lemma SlideSettles(was: seq<int>, c: nat, acc: seq<int>)
    requires c < |was| && was[c] > 0 && |acc| <= c
    ensures |acc| < c ==> acc + [was[c]] + Zeros(c - |acc|) != was[..c + 1]
    ensures |acc| == c ==>
      (acc + [was[c]] + Zeros(c - |acc|) == was[..c + 1] <==> acc + Zeros(c - |acc|) == was[..c])
  {
    var z := acc + [was[c]] + Zeros(c - |acc|);
    assert was[..c + 1] == was[..c] + [was[c]];
    if |acc| < c {
      assert z[c] == 0 && was[..c + 1][c] == was[c];
    } else {
      assert z == acc + [was[c]] && acc + Zeros(0) == acc;
      assert z[..c] == acc && was[..c + 1][..c] == was[..c];
    }
  }

  lemma SlideLayout(was: seq<int>, now: seq<int>, c: nat, acc: seq<int>)
    requires c < |was| && |acc| <= c && now == acc + Zeros(c - |acc|) + was[c..]
    ensures now[|acc| := was[c]][c := if |acc| == c then was[c] else 0]
         == acc + [was[c]] + Zeros(c - |acc|) + was[c + 1..]
  {
    assert was[c..] == [was[c]] + was[c + 1..];
  }

  /** The tile slides next to the nearest one, or to the wall. */
  lemma SlideStep(was: seq<int>, now: seq<int>, merged: seq<bool>, c: nat)
    requires NonNegative(was) && LineDone(was, now, merged, c) && c < 4 && was[c] > 0
    requires var t := TargetIndex(now, c); !(t >= 0 && now[t] == now[c] && !merged[t])
    ensures var t := TargetIndex(now, c);
      LineDone(was, now[t + 1 := now[c]][c := if t + 1 == c then now[c] else 0], merged, c + 1)
    ensures TargetIndex(now, c) + 1 != c ==> !Settled(was, c + 1)
    ensures TargetIndex(now, c) + 1 == c ==> (Settled(was, c + 1) <==> Settled(was, c))
  {
    hide Feed, Zeros;
    TargetIsLastPlaced(was, now, merged, c);
    NextPlaced(was, c);
    SlideSettles(was, c, Placed(was[..c]).acc);
    SlideLayout(was, now, c, Placed(was[..c]).acc);
  }

  lemma EmptySettles(was: seq<int>, c: nat, acc: seq<int>)
    requires c < |was| && was[c] == 0 && |acc| <= c
    ensures acc + Zeros(c + 1 - |acc|) == was[..c + 1] <==> acc + Zeros(c - |acc|) == was[..c]
    ensures acc + Zeros(c - |acc|) + was[c..] == acc + Zeros(c + 1 - |acc|) + was[c + 1..]
  {
    var z := acc + Zeros(c - |acc|);
    assert acc + Zeros(c + 1 - |acc|) == z + [0];
    assert was[..c + 1] == was[..c] + [0];
    assert (z + [0])[..c] == z && was[..c + 1][..c] == was[..c];
    assert was[c..] == [0] + was[c + 1..];
  }

  /** An empty cell stays. */
  lemma EmptyStep(was: seq<int>, now: seq<int>, merged: seq<bool>, c: nat)
    requires NonNegative(was) && LineDone(was, now, merged, c) && c < 4 && was[c] == 0
    ensures LineDone(was, now, merged, c + 1)
    ensures Settled(was, c + 1) <==> Settled(was, c)
  {
    hide Feed, Zeros;
    NextPlaced(was, c);
    EmptySettles(was, c, Placed(was[..c]).acc);
  }

  lemma LineStarts(was: seq<int>, merged: seq<bool>)
    requires |was| == |merged| == 4 && forall j :: 0 <= j < 4 ==> !merged[j]
    ensures LineDone(was, was, merged, 0) && Settled(was, 0)
  {
    assert was[..0] == [] && was[0..] == was;
  }

  /** When the whole line has been handled it is the slide of what it was. */
  lemma LineEnds(was: seq<int>, now: seq<int>, merged: seq<bool>)
    requires LineDone(was, now, merged, 4)
    ensures now == Slide(was)
    ensures Settled(was, 4) <==> Slide(was) == was
  {
    assert was[..4] == was;
    PlacedIsMerge(was);
    assert now == Placed(was).acc + Zeros(4 - |Placed(was).acc|);
  }

  // ---------------------------------------------------------------------
  // The order of the loops
  // ---------------------------------------------------------------------

  /** How many cells of line l have been handled before turn (i, j). */
  function Handled(dir: int, i: int, j: int, l: int): (c: nat)
    requires IsDir(dir) && 0 <= i <= 4 && 0 <= j <= 4 && 0 <= l < 4
    requires i == 4 ==> j == 0
    ensures c <= 4
  {
    if dir == UP || dir == DOWN then (if l < j then i + 1 else i)
    else if l < i then 4 else if l == i then j else 0
  }

  /** The line and the distance that turn (i, j) handles. */
  function TurnLine(dir: int, i: int, j: int): (l: int)
    requires 0 <= i < 4 && 0 <= j < 4
    ensures 0 <= l < 4
  {
    if dir == UP || dir == DOWN then j else i
  }

  function TurnDepth(dir: int, i: int, j: int): (k: int)
    requires 0 <= i < 4 && 0 <= j < 4
    ensures 0 <= k < 4
  {
    if dir == UP || dir == DOWN then i else j
  }

  lemma TurnHandles(dir: int, i: int, j: int, l: int)
    requires IsDir(dir) && 0 <= i < 4 && 0 <= j < 4 && 0 <= l < 4
    ensures Handled(dir, i, j + 1, l) == if l == TurnLine(dir, i, j) then Handled(dir, i, j, l) + 1 else Handled(dir, i, j, l)
    ensures l == TurnLine(dir, i, j) ==> Handled(dir, i, j, l) == TurnDepth(dir, i, j)
    ensures j == 3 ==> Handled(dir, i, 4, l) == Handled(dir, i + 1, 0, l)
  {
  }

  /** The board before turn (i, j). */
  ghost predicate Sliding(dir: int, was: seq<int>, now: seq<int>, merged: seq<bool>, i: int, j: int) {
    && IsDir(dir) && 0 <= i <= 4 && 0 <= j <= 4 && (i == 4 ==> j == 0)
    && IsBoard(was) && |now| == 16 && |merged| >= 16
    && forall l :: 0 <= l < 4 ==> LineDone(Line(was, dir, l), Line(now, dir, l), Line(merged, dir, l), Handled(dir, i, j, l))
  }

  predicate AnyMoved(dir: int, was: seq<int>, i: int, j: int)
    requires IsDir(dir) && 0 <= i <= 4 && 0 <= j <= 4 && (i == 4 ==> j == 0) && |was| >= 16
  {
    exists l :: 0 <= l < 4 && !Settled(Line(was, dir, l), Handled(dir, i, j, l))
  }

  lemma SlidingStarts(dir: int, was: seq<int>, merged: seq<bool>)
    requires IsDir(dir) && IsBoard(was) && |merged| >= 16 && forall p :: 0 <= p < |merged| ==> !merged[p]
    ensures Sliding(dir, was, was, merged, 0, 0) && !AnyMoved(dir, was, 0, 0)
  {
    hide LineDone, LinePos, Settled;
    forall l | 0 <= l < 4
      ensures LineDone(Line(was, dir, l), Line(was, dir, l), Line(merged, dir, l), 0) && Settled(Line(was, dir, l), 0)
    {
      LineStarts(Line(was, dir, l), Line(merged, dir, l));
    }
  }

  lemma LineNonNegative(b: seq<int>, dir: int, l: int)
    requires IsBoard(b) && IsDir(dir) && 0 <= l < 4
    ensures NonNegative(Line(b, dir, l))
  {
  }

  /** What turn (i, j) finds in its cell. */
  lemma TurnFacts(dir: int, was: seq<int>, now: seq<int>, merged: seq<bool>, i: int, j: int)
    requires 0 <= i < 4 && 0 <= j < 4 && Sliding(dir, was, now, merged, i, j)
    ensures var l, c := TurnLine(dir, i, j), TurnDepth(dir, i, j);
      && 0 <= l < 4 && 0 <= c < 4
      && LineDone(Line(was, dir, l), Line(now, dir, l), Line(merged, dir, l), c)
      && NonNegative(Line(was, dir, l))
      && Line(now, dir, l)[c] == Line(was, dir, l)[c] >= 0
  {
    hide Line, LinePos, LineDone;
    var l, c := TurnLine(dir, i, j), TurnDepth(dir, i, j);
    TurnHandles(dir, i, j, l);
    LineNonNegative(was, dir, l);
    TargetIsLastPlaced(Line(was, dir, l), Line(now, dir, l), Line(merged, dir, l), c);
  }

  /** If the turn's own line is done one cell further and no other has changed, the turn is complete. */
  lemma TurnDone(dir: int, was: seq<int>, now: seq<int>, merged: seq<bool>, now': seq<int>, merged': seq<bool>, i: int, j: int)
    requires 0 <= i < 4 && 0 <= j < 4 && Sliding(dir, was, now, merged, i, j) && |now'| == 16 && |merged'| >= 16
    requires var l, c := TurnLine(dir, i, j), TurnDepth(dir, i, j);
      && LineDone(Line(was, dir, l), Line(now', dir, l), Line(merged', dir, l), c + 1)
      && forall m :: 0 <= m < 4 && m != l ==>
           Line(now', dir, m) == Line(now, dir, m) && Line(merged', dir, m) == Line(merged, dir, m)
    ensures Sliding(dir, was, now', merged', i, j + 1)
  {
    hide Line, LinePos, LineDone;
    forall m | 0 <= m < 4
      ensures LineDone(Line(was, dir, m), Line(now', dir, m), Line(merged', dir, m), Handled(dir, i, j + 1, m))
    {
      TurnHandles(dir, i, j, m);
    }
  }

  /** Whether anything has moved depends on the turn's own line only. */
  lemma TurnMoved(dir: int, was: seq<int>, i: int, j: int)
    requires IsDir(dir) && 0 <= i < 4 && 0 <= j < 4 && IsBoard(was)
    ensures var l, c := TurnLine(dir, i, j), TurnDepth(dir, i, j);
      var s := Line(was, dir, l);
      && (!Settled(s, c + 1) ==> AnyMoved(dir, was, i, j + 1) )
      && ((Settled(s, c + 1) <==> Settled(s, c)) ==> (AnyMoved(dir, was, i, j + 1) <==> AnyMoved(dir, was, i, j)))
  {
    hide Line, LinePos, Settled;
    var l := TurnLine(dir, i, j);
    forall m | 0 <= m < 4
      ensures Handled(dir, i, j + 1, m) == if m == l then TurnDepth(dir, i, j) + 1 else Handled(dir, i, j, m)
      ensures m == l ==> Handled(dir, i, j, m) == TurnDepth(dir, i, j)
    {
      TurnHandles(dir, i, j, m);
    }
    if AnyMoved(dir, was, i, j + 1) {
      var m :| 0 <= m < 4 && !Settled(Line(was, dir, m), Handled(dir, i, j + 1, m));
    }
  }

  lemma TwoUpdates<T>(b: seq<T>, dir: int, l: int, k: int, v: T, k': int, v': T, m: int)
    requires |b| >= 16 && IsDir(dir) && 0 <= l < 4 && 0 <= k < 4 && 0 <= k' < 4 && 0 <= m < 4
    ensures Line(b[LinePos(dir, l, k) := v][LinePos(dir, l, k') := v'], dir, m)
         == if m == l then Line(b, dir, l)[k := v][k' := v'] else Line(b, dir, m)
  {
    hide Line, LinePos;
    LineUpdate(b, dir, l, k, v, m);
    LineUpdate(b[LinePos(dir, l, k) := v], dir, l, k', v', m);
    LineUpdate(b, dir, l, k, v, l);
  }

  lemma MergeTurn(dir: int, was: seq<int>, now: seq<int>, merged: seq<bool>, i: int, j: int)
    requires 0 <= i < 4 && 0 <= j < 4 && Sliding(dir, was, now, merged, i, j)
    requires var l, c := TurnLine(dir, i, j), TurnDepth(dir, i, j);
      var t := TargetIndex(Line(now, dir, l), c);
      && Line(now, dir, l)[c] > 0 && t >= 0
      && Line(now, dir, l)[t] == Line(now, dir, l)[c] && !Line(merged, dir, l)[t]
    ensures var l, c := TurnLine(dir, i, j), TurnDepth(dir, i, j);
      var t := TargetIndex(Line(now, dir, l), c);
      var p, q := LinePos(dir, l, t), LinePos(dir, l, c);
      Sliding(dir, was, now[p := now[p] + 1][q := 0], merged[p := true], i, j + 1)
    ensures AnyMoved(dir, was, i, j + 1)
  {
    hide Line, LinePos, LineDone, TargetIndex, Settled, AnyMoved;
    TurnFacts(dir, was, now, merged, i, j);
    var l, c := TurnLine(dir, i, j), TurnDepth(dir, i, j);
    var t := TargetIndex(Line(now, dir, l), c);
    var p, q := LinePos(dir, l, t), LinePos(dir, l, c);
    MergeStep(Line(was, dir, l), Line(now, dir, l), Line(merged, dir, l), c);
    LineAt(now, dir, l, t);
    forall m | 0 <= m < 4
      ensures Line(now[p := now[p] + 1][q := 0], dir, m)
           == if m == l then Line(now, dir, l)[t := now[p] + 1][c := 0] else Line(now, dir, m)
      ensures Line(merged[p := true], dir, m) == if m == l then Line(merged, dir, l)[t := true] else Line(merged, dir, m)
    {
      TwoUpdates(now, dir, l, t, now[p] + 1, c, 0, m);
      LineUpdate(merged, dir, l, t, true, m);
    }
    TurnDone(dir, was, now, merged, now[p := now[p] + 1][q := 0], merged[p := true], i, j);
    TurnMoved(dir, was, i, j);
  }

  lemma SlideTurn(dir: int, was: seq<int>, now: seq<int>, merged: seq<bool>, i: int, j: int)
    requires 0 <= i < 4 && 0 <= j < 4 && Sliding(dir, was, now, merged, i, j)
    requires var l, c := TurnLine(dir, i, j), TurnDepth(dir, i, j);
      var t := TargetIndex(Line(now, dir, l), c);
      && Line(now, dir, l)[c] > 0
      && !(t >= 0 && Line(now, dir, l)[t] == Line(now, dir, l)[c] && !Line(merged, dir, l)[t])
    ensures var l, c := TurnLine(dir, i, j), TurnDepth(dir, i, j);
      var t := TargetIndex(Line(now, dir, l), c);
      var p, q := LinePos(dir, l, t + 1), LinePos(dir, l, c);
      && Sliding(dir, was, now[p := now[q]][q := if t + 1 == c then now[q] else 0], merged, i, j + 1)
      && (AnyMoved(dir, was, i, j + 1) <==> AnyMoved(dir, was, i, j) || t + 1 != c)
  {
    hide Line, LinePos, LineDone, TargetIndex, Settled, AnyMoved;
    TurnFacts(dir, was, now, merged, i, j);
    var l, c := TurnLine(dir, i, j), TurnDepth(dir, i, j);
    var t := TargetIndex(Line(now, dir, l), c);
    var p, q := LinePos(dir, l, t + 1), LinePos(dir, l, c);
    var v := if t + 1 == c then now[q] else 0;
    SlideStep(Line(was, dir, l), Line(now, dir, l), Line(merged, dir, l), c);
    LineAt(now, dir, l, c);
    forall m | 0 <= m < 4
      ensures Line(now[p := now[q]][q := v], dir, m)
           == if m == l then Line(now, dir, l)[t + 1 := now[q]][c := v] else Line(now, dir, m)
    {
      TwoUpdates(now, dir, l, t + 1, now[q], c, v, m);
    }
    TurnDone(dir, was, now, merged, now[p := now[q]][q := v], merged, i, j);
    TurnMoved(dir, was, i, j);
  }

  lemma EmptyTurn(dir: int, was: seq<int>, now: seq<int>, merged: seq<bool>, i: int, j: int)
    requires 0 <= i < 4 && 0 <= j < 4 && Sliding(dir, was, now, merged, i, j)
    requires Line(now, dir, TurnLine(dir, i, j))[TurnDepth(dir, i, j)] == 0
    ensures Sliding(dir, was, now, merged, i, j + 1)
    ensures AnyMoved(dir, was, i, j + 1) <==> AnyMoved(dir, was, i, j)
  {
    hide Line, LinePos, LineDone, Settled, AnyMoved;
    TurnFacts(dir, was, now, merged, i, j);
    var l, c := TurnLine(dir, i, j), TurnDepth(dir, i, j);
    EmptyStep(Line(was, dir, l), Line(now, dir, l), Line(merged, dir, l), c);
    TurnDone(dir, was, now, merged, now, merged, i, j);
    TurnMoved(dir, was, i, j);
  }

  /** The next row of turns starts where the last one ended. */
  lemma SlidingTurns(dir: int, was: seq<int>, now: seq<int>, merged: seq<bool>, i: int)
    requires 0 <= i < 4 && Sliding(dir, was, now, merged, i, 4)
    ensures Sliding(dir, was, now, merged, i + 1, 0)
    ensures AnyMoved(dir, was, i, 4) == AnyMoved(dir, was, i + 1, 0)
  {
    hide LineDone, LinePos, Settled, Line;
    forall l | 0 <= l < 4
      ensures Handled(dir, i, 4, l) == Handled(dir, i + 1, 0, l)
    {
      TurnHandles(dir, i, 3, l);
    }
  }

  lemma SlidingEnds(dir: int, was: seq<int>, now: seq<int>, merged: seq<bool>)
    requires Sliding(dir, was, now, merged, 4, 0)
    ensures now == Slid(was, dir)
    ensures AnyMoved(dir, was, 4, 0) <==> CanMove(was, dir)
  {
    hide LineDone, Line, Settled, Slid, Slide;
    forall l | 0 <= l < 4
      ensures Handled(dir, 4, 0, l) == 4
      ensures Line(now, dir, l) == Line(Slid(was, dir), dir, l)
      ensures Settled(Line(was, dir, l), 4) <==> Line(Slid(was, dir), dir, l) == Line(was, dir, l)
    {
      LineEnds(Line(was, dir, l), Line(now, dir, l), Line(merged, dir, l));
      SlidLine(was, dir, l);
    }
    SameLinesSameBoard(now, Slid(was, dir), dir);
    if !AnyMoved(dir, was, 4, 0) {
      SameLinesSameBoard(Slid(was, dir), was, dir);
    }
  }
}
