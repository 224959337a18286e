/**
 The 2048 player as the program has it: a board changed in place, a recursive
 flood fill, and a recursive alpha-beta search.
 */
module Ai2048 {
  import opened Grid
  import opened SlideSteps
  import opened Lands
  import opened Minimax
  import FewCandidates

  /** The bound on evaluations. */
  const INF: real := 1000.0

  /** ArrayMax. */
  method ArrayMax(a: array<int>, size: nat) returns (max: int)
    requires 0 < size <= a.Length
    ensures exists i :: 0 <= i < size && a[i] == max
    ensures forall i :: 0 <= i < size ==> a[i] <= max
  {
    max := a[0];
    for i := 1 to size
      invariant exists j :: 0 <= j < i && a[j] == max
      invariant forall j :: 0 <= j < i ==> a[j] <= max
    {
      if max < a[i] {
        max := a[i];
      }
    }
  }

  /** lg2: the largest power of two that is not above n. */
  method Lg2(n: nat) returns (k: nat)
    ensures n == 0 ==> k == 0
    ensures n > 0 ==> Pow2(k) <= n < Pow2(k + 1)
  {
    k := 0;
    if n == 0 {
      return;
    }
    var m := n;
    while m > 1
      invariant 1 <= m
      invariant m * Pow2(k) <= n < (m + 1) * Pow2(k)
    {
      HalfStep(m, Pow2(k), n);
      m := m / 2;
      k := k + 1;
    }
  }

  lemma HalfStep(m: nat, p: nat, n: nat)
    requires m > 1 && m * p <= n < (m + 1) * p
    ensures (m / 2) * (2 * p) <= n < (m / 2 + 1) * (2 * p)
  {
    var h := m / 2;
    assert m == 2 * h || m == 2 * h + 1;
    assert h * (2 * p) == (2 * h) * p && (h + 1) * (2 * p) == (2 * h + 2) * p;
  }

  const POS_LIST: seq<seq<int>> := [[0, 1, 2, 3], [3, 2, 1, 0]]

  lemma TurnPos(dir: int, i: int, j: int)
    requires IsDir(dir) && 0 <= i < 4 && 0 <= j < 4
    ensures POS_LIST[if dir == DOWN then 1 else 0][i] * 4 + POS_LIST[if dir == RIGHT then 1 else 0][j]
         == LinePos(dir, TurnLine(dir, i, j), TurnDepth(dir, i, j))
  {
  }

  /** The cells still to be marked. */
  ghost function Unmarked(marked: seq<bool>): nat {
    |set p: int | 0 <= p < |marked| && !marked[p]|
  }

  lemma FewerUnmarked(a: seq<bool>, b: seq<bool>)
    requires |a| == |b| && forall p :: 0 <= p < |a| && a[p] ==> b[p]
    ensures Unmarked(b) <= Unmarked(a)
  {
    SubsetSize(set p: int | 0 <= p < |b| && !b[p], set p: int | 0 <= p < |a| && !a[p]);
  }

  lemma SubsetSize(a: set<int>, b: set<int>)
    requires a <= b
    ensures |a| <= |b|
  {
    assert b == a + (b - a) && a * (b - a) == {};
  }

  lemma OneLess(before: seq<bool>, pos: int)
    requires 0 <= pos < |before| && !before[pos]
    ensures Unmarked(before[pos := true]) < Unmarked(before)
  {
    var after := before[pos := true];
    var s, t := set p: int | 0 <= p < |before| && !before[p], set p: int | 0 <= p < |after| && !after[p];
    assert t == s - {pos} && pos in s;
  }

  lemma MarkedStays(b: seq<int>, before: seq<bool>, after: seq<bool>, pos: int, val: int)
    requires MarkedBy(b, before, after, pos, val, 4)
    ensures Unmarked(after) <= Unmarked(before)
  {
    hide Unmarked;
    FewerUnmarked(before, after);
  }

  lemma TargetIsTile(b: seq<int>, dir: int, pos: int)
    requires IsBoard(b) && IsDir(dir) && IsPos(pos)
    ensures var l := LineOf(dir, pos);
      var t := TargetIndex(Line(b, dir, l), Depth(dir, pos));
      t >= 0 ==> b[LinePos(dir, l, t)] > 0
  {
    hide Line, LinePos, LineOf, Depth;
    var l := LineOf(dir, pos);
    var t := TargetIndex(Line(b, dir, l), Depth(dir, pos));
    TargetNotEmpty(Line(b, dir, l), Depth(dir, pos));
    if t >= 0 {
      LineAt(b, dir, l, t);
    }
  }

  lemma {:induction false} TargetNotEmpty(line: seq<int>, k: nat)
    requires k <= |line|
    ensures TargetIndex(line, k) >= 0 ==> line[TargetIndex(line, k)] != 0
  {
    if k > 0 && line[k - 1] == 0 {
      TargetNotEmpty(line, k - 1);
    }
  }

  lemma SomeEmpty(b: seq<int>)
    requires |b| == 16 && HasEmpty(b)
    ensures EmptyBelow(b, 16) != [] && Placements(b) != []
  {
    var p :| 0 <= p < 16 && b[p] == 0;
    assert p in EmptyBelow(b, 16);
  }

  ghost predicate MaxOf(b: seq<int>, val: int, max: int)
    requires |b| == 16
  {
    var e := EmptyBelow(b, 16);
    && (exists i :: 0 <= i < |e| && Score(b, Placement(e[i], val)) == max)
    && (forall i :: 0 <= i < |e| ==> Score(b, Placement(e[i], val)) <= max)
  }

  /** The larger of the two maxima is the highest score of all placements. */
  lemma TopIsMax(b: seq<int>, max1: int, max2: int)
    requires |b| == 16 && MaxOf(b, 1, max1) && MaxOf(b, 2, max2)
    ensures Placements(b) != []
    ensures TopScore(b, Placements(b)) == if max1 < max2 then max2 else max1
  {
    hide Score, EmptyBelow, TopScore, Open, AllOpen;
    var e, ps := EmptyBelow(b, 16), Placements(b);
    var i1 :| 0 <= i1 < |e| && Score(b, Placement(e[i1], 1)) == max1;
    var i2 :| 0 <= i2 < |e| && Score(b, Placement(e[i2], 2)) == max2;
    assert ps[i1] == Placement(e[i1], 1) && ps[|e| + i2] == Placement(e[i2], 2);
    TopScoreIsTop(b, ps);
    var i :| 0 <= i < |ps| && Open(b, ps[i]) && Score(b, ps[i]) == TopScore(b, ps);
    assert ps[i] == if i < |e| then Placement(e[i], 1) else Placement(e[i - |e|], 2);
  }

  lemma NothingKept(b: seq<int>, max: int)
    requires |b| == 16
    ensures AllOpen(b, []) && Keep(b, [], max) == []
  {
  }

  lemma KeepSnoc(b: seq<int>, ps: seq<Placement>, p: Placement, max: int)
    requires AllOpen(b, ps) && Open(b, p)
    ensures AllOpen(b, ps + [p])
    ensures Keep(b, ps + [p], max) == Keep(b, ps, max) + if Score(b, p) == max then [p] else []
  {
    hide Score;
    var all := ps + [p];
    assert all[..|ps|] == ps;
    assert Keep(b, ps, max) + [] == Keep(b, ps, max);
  }

  lemma WithNothing(before: seq<Placement>, val: int)
    ensures forall empty: seq<int> :: before + AllWith(empty[..0], val) == before
  {
  }

  lemma WithOneMore(empty: seq<int>, j: nat, val: int)
    requires j < |empty|
    ensures AllWith(empty[..j + 1], val) == AllWith(empty[..j], val) + [Placement(empty[j], val)]
  {
  }

  /** The first n entries of two arrays are these placements. */
  predicate Lists(pos: seq<int>, val: seq<int>, n: nat, cs: seq<Placement>) {
    && n == |cs| <= |pos| == |val|
    && forall i :: 0 <= i < n ==> cs[i] == Placement(pos[i], val[i])
  }

  lemma NothingListed(pos: seq<int>, val: seq<int>)
    requires |pos| == |val|
    ensures Lists(pos, val, 0, [])
  {
  }

  lemma ListsHas(pos: seq<int>, val: seq<int>, n: nat, cs: seq<Placement>)
    requires Lists(pos, val, n, cs)
    ensures n == |cs| <= |pos| == |val|
    ensures forall i :: 0 <= i < n ==> cs[i] == Placement(pos[i], val[i])
  {
  }

  lemma EmptyIsOpen(b: seq<int>, j: nat, val: int)
    requires |b| == 16 && j < |EmptyBelow(b, 16)| && (val == 1 || val == 2)
    ensures Open(b, Placement(EmptyBelow(b, 16)[j], val))
  {
  }

  lemma ListsOneMore(pos: seq<int>, val: seq<int>, n: nat, cs: seq<Placement>, p: Placement)
    requires Lists(pos, val, n, cs) && n < |pos|
    ensures Lists(pos[n := p.pos], val[n := p.val], n + 1, cs + [p])
  {
  }

  /** What has been kept so far is not more than what is kept in the end. */
  lemma KeptFits(b: seq<int>, before: seq<Placement>, empty: seq<int>, j: nat, val: int, max: int)
    requires j <= |empty| && AllOpen(b, before + AllWith(empty, val))
    ensures AllOpen(b, before + AllWith(empty[..j], val))
    ensures |Keep(b, before + AllWith(empty[..j], val), max)| <= |Keep(b, before + AllWith(empty, val), max)|
  {
    hide Keep, Open;
    var all, head := before + AllWith(empty, val), before + AllWith(empty[..j], val);
    assert all[..|head|] == head;
    assert all == head + all[|head|..];
    FewCandidates.KeepAppend(b, head, all[|head|..], max);
  }

  /** There is room for the candidates in arrays of twenty. */
  lemma CandidatesFit(b: seq<int>)
    requires IsBoard(b) && HasEmpty(b) && HasTile(b)
    ensures var top := TopScore(b, Placements(b));
      && AllOpen(b, AllWith(EmptyBelow(b, 16), 1))
      && |Keep(b, AllWith(EmptyBelow(b, 16), 1), top)| <= |Keep(b, Placements(b), top)| <= 20
  {
    hide Score, TopScore, Candidates, Keep, HasEmpty, HasTile, EmptyBelow, Open;
    FewCandidates.TwentySuffice(b);
    CandidatesAre(b);
    var e := EmptyBelow(b, 16);
    KeptFits(b, AllWith(e, 1), e, 0, 2, TopScore(b, Placements(b)));
    assert AllWith(e, 1) + AllWith(e[..0], 2) == AllWith(e, 1);
  }

  lemma MaxOfArray(b: seq<int>, empty: seq<int>, score: array<int>, val: int, max: int)
    requires |b| == 16 && empty == EmptyBelow(b, 16) && |empty| <= score.Length
    requires forall j :: 0 <= j < |empty| ==> score[j] == Score(b, Placement(empty[j], val))
    requires exists i :: 0 <= i < |empty| && score[i] == max
    requires forall i :: 0 <= i < |empty| ==> score[i] <= max
    ensures MaxOf(b, val, max)
  {
    hide Score, EmptyBelow;
  }

  lemma CandidatesAre(b: seq<int>)
    requires |b| == 16 && HasEmpty(b)
    ensures Placements(b) != [] && Candidates(b) != []
    ensures Candidates(b) == Keep(b, Placements(b), TopScore(b, Placements(b)))
  {
    hide Score, Placements, Keep, TopScore, HasEmpty;
    SomeEmpty(b);
    CandidatesSpec(b);
  }

  lemma PlacementsAre(b: seq<int>)
    requires |b| == 16
    ensures Placements(b) == AllWith(EmptyBelow(b, 16), 1) + AllWith(EmptyBelow(b, 16), 2)
    ensures [] + AllWith(EmptyBelow(b, 16), 1) == AllWith(EmptyBelow(b, 16), 1)
  {
  }

  lemma PlayerStarts(eval: seq<int> -> real, b: seq<int>, depth: int, alpha: real, beta: real)
    requires IsBoard(b) && depth > 0 && alpha < beta
    ensures PlayerSoFar(eval, b, depth, alpha, beta, 0, alpha, -1)
  {
  }

  lemma PlayerEnds(eval: seq<int> -> real, b: seq<int>, depth: int, alpha0: real, beta: real, alpha: real, move: int)
    requires IsBoard(b) && depth > 0 && PlayerSoFar(eval, b, depth, alpha0, beta, 4, alpha, move)
    ensures alpha0 <= alpha < beta
    ensures alpha == Clamp(BestOf(eval, b, depth, 4), alpha0, beta) == Clamp(Is(alpha), alpha0, beta)
    ensures Less(BestOf(eval, b, depth, 4), Is(beta))
    ensures if Less(Is(alpha0), BestOf(eval, b, depth, 4)) then FirstBest(eval, b, depth, 4, move) else move == -1
  {
    hide BestOf, FirstBest;
  }

  lemma AtBeta(alpha: real, beta: real)
    requires alpha < beta
    ensures Clamp(Is(beta), alpha, beta) == beta
  {
  }

  lemma AfterMoveIs(eval: seq<int> -> real, b: seq<int>, depth: int, dir: int)
    requires IsBoard(b) && depth > 0 && IsDir(dir)
    ensures IsBoard(Slid(b, dir)) && AfterMove(eval, b, depth, dir) == Value(eval, Slid(b, dir), depth - 1, false)
  {
    hide Slid, Value;
    SlidIsBoard(b, dir);
  }

  lemma AfterReplyIs(eval: seq<int> -> real, b: seq<int>, depth: int, p: Placement)
    requires IsBoard(b) && depth > 0 && Open(b, p)
    ensures IsBoard(b[p.pos := p.val]) && AfterReply(eval, b, depth, p) == Value(eval, b[p.pos := p.val], depth, true)
  {
    hide Value;
  }

  lemma OpenAt(b: seq<int>, ps: seq<Placement>, i: nat)
    requires AllOpen(b, ps) && i < |ps|
    ensures Open(b, ps[i])
  {
  }

  lemma CandidatesOpen(b: seq<int>)
    requires |b| == 16
    ensures AllOpen(b, Candidates(b))
  {
    hide Score;
    CandidatesSpec(b);
  }

  lemma ComputerStarts(eval: seq<int> -> real, b: seq<int>, depth: int, alpha: real, beta: real, cs: seq<Placement>)
    requires IsBoard(b) && depth > 0 && alpha < beta && AllOpen(b, cs)
    ensures ComputerSoFar(eval, b, depth, alpha, beta, cs, 0, beta)
  {
    assert cs[..0] == [];
  }

  lemma ComputerEnds(eval: seq<int> -> real, b: seq<int>, depth: int, alpha: real, beta0: real, cs: seq<Placement>, beta: real)
    requires IsBoard(b) && depth > 0 && AllOpen(b, cs) && ComputerSoFar(eval, b, depth, alpha, beta0, cs, |cs|, beta)
    ensures beta == Clamp(WorstOf(eval, b, depth, cs), alpha, beta0) == Clamp(Is(beta), alpha, beta0)
  {
    hide WorstOf;
    assert cs[..|cs|] == cs;
  }

  /** From the root window, no move is found exactly when every legal one is lost, and otherwise the first best. */
  lemma RootMove(eval: seq<int> -> real, b: seq<int>, depth: int, move: int)
    requires IsBoard(b) && depth > 0 && !IsWin(b) && Bounded(eval, INF)
    requires var best := BestOf(eval, b, depth, 4);
      if !Less(best, Is(INF)) then FirstCut(eval, b, depth, INF, move)
      else if Less(Is(-INF), best) then FirstBest(eval, b, depth, 4, move)
      else move == -1
    ensures move == -1 <==> forall d :: IsDir(d) && CanMove(b, d) ==> AfterMove(eval, b, depth, d) == Dead
    ensures move != -1 ==> FirstBest(eval, b, depth, 4, move)
    ensures depth == 1 && (exists d :: IsDir(d) && CanMove(b, d)) ==> move != -1
  {
    hide BestOf, CanMove, IsWin, AfterMove;
    BestInside(eval, INF, b, depth, 4);
    PlayerValue(eval, b, depth);
    if d :| IsDir(d) && CanMove(b, d) {
      LeafIsAlive(eval, b, d);
    }
  }

  lemma LeafIsAlive(eval: seq<int> -> real, b: seq<int>, d: int)
    requires IsBoard(b) && IsDir(d)
    ensures AfterMove(eval, b, 1, d) != Dead
  {
    hide Slid;
    AfterMoveIs(eval, b, 1, d);
  }

  lemma WonIsAlive(eval: seq<int> -> real, b: seq<int>, depth: int)
    requires IsBoard(b)
    ensures IsWin(b) ==> Value(eval, b, depth, true) != Dead
  {
  }

  lemma ScoreBeatsNothing(eval: seq<int> -> real, b: seq<int>, depth: int, score: real)
    requires IsBoard(b) && depth > 0 && Bounded(eval, INF)
    requires Clamp(Is(score), -INF, INF) == Clamp(Value(eval, b, depth, true), -INF, INF)
    ensures Value(eval, b, depth, true) != Dead ==> score > -INF
  {
    hide BestOf, IsWin;
    ValueInside(eval, INF, b, depth, true);
  }

  class AI2048 {
    /** int8_t tiles_[20]: only the first 16 are the board. */
    const tiles: array<int>
    const eval: seq<int> -> real
    var bestMove: int

    ghost predicate Valid()
      reads this, tiles
    {
      tiles.Length == 20 && IsBoard(tiles[..16])
    }

    ghost function Board(): (b: seq<int>)
      reads this, tiles
      requires tiles.Length == 20
      ensures |b| == 16
    {
      tiles[..16]
    }

    constructor (eval: seq<int> -> real)
      ensures Valid() && fresh(tiles) && this.eval == eval
      ensures Board() == Zeros(16) && bestMove == -1
    {
      this.eval := eval;
      tiles := new int[20](_ => 0);
      bestMove := -1;
    }

    method CopyTilesFrom(ai: AI2048)
      requires tiles.Length == 20 && ai.Valid() && ai.tiles != tiles
      modifies tiles
      ensures Valid() && Board() == ai.Board()
    {
      for i := 0 to 20
        invariant forall j :: 0 <= j < i ==> tiles[j] == ai.tiles[j]
        modifies tiles
      {
        tiles[i] := ai.tiles[i];
      }
      assert tiles[..16] == ai.tiles[..16];
    }

    // -------------------------------------------------------------------
    // Moving
    // -------------------------------------------------------------------

    /** GetTargetPos: the last empty cell on the way to the wall, and what lies beyond it. */
    method GetTargetPos(pos: int, dir: int) returns (prev: int, target: int)
      requires Valid() && IsPos(pos) && IsDir(dir)
      ensures var l := LineOf(dir, pos);
        var t := TargetIndex(Line(Board(), dir, l), Depth(dir, pos));
        && prev == LinePos(dir, l, t + 1)
        && target == if t < 0 then -1 else LinePos(dir, l, t)
    {
      hide Line, LinePos, LineOf, Depth, Neighbour;
      ghost var l, k := LineOf(dir, pos), Depth(dir, pos);
      ghost var line := Line(Board(), dir, l);
      ghost var t := TargetIndex(line, k);
      PlaceBack(dir, pos);
      WallIsNeighbour(dir, l, k);
      TableIsNeighbour(pos, dir);
      prev, target := pos, DIR_POS[pos][dir];
      while target >= 0 && tiles[target] == 0
        invariant 0 <= k < 4 && TargetIndex(line, k) == t
        invariant prev == LinePos(dir, l, k) && target == if k == 0 then -1 else LinePos(dir, l, k - 1)
        decreases k
      {
        LineAt(Board(), dir, l, k - 1);
        k := k - 1;
        WallIsNeighbour(dir, l, k);
        TableIsNeighbour(target, dir);
        prev, target := target, DIR_POS[target][dir];
      }
      if k > 0 {
        LineAt(Board(), dir, l, k - 1);
      }
    }

    /** One turn of TryMove's loops: the tile in one cell, if any, merges or slides. */
    method MoveTile(dir: int, pos: int, merged: array<bool>, ghost was: seq<int>, ghost i: int, ghost j: int)
        returns (moved: bool)
      requires Valid() && merged.Length == 20 && 0 <= i < 4 && 0 <= j < 4
      requires Sliding(dir, was, Board(), merged[..], i, j)
      requires pos == LinePos(dir, TurnLine(dir, i, j), TurnDepth(dir, i, j))
      modifies tiles, merged
      ensures Valid() && Sliding(dir, was, Board(), merged[..], i, j + 1)
      ensures AnyMoved(dir, was, i, j + 1) <==> AnyMoved(dir, was, i, j) || moved
    {
      hide Line, LinePos, LineOf, Depth, TargetIndex, LineDone, Settled, Handled;
      ghost var l, c := TurnLine(dir, i, j), TurnDepth(dir, i, j);
      ghost var now, flags := Board(), merged[..];
      moved := false;
      TurnFacts(dir, was, now, flags, i, j);
      PlaceOf(dir, l, c);
      LineAt(now, dir, l, c);
      if tiles[pos] > 0 {
        var target0, target := GetTargetPos(pos, dir);
        ghost var t := TargetIndex(Line(now, dir, l), c);
        if t >= 0 {
          LineAt(now, dir, l, t);
          LineAt(flags, dir, l, t);
        }
        LinePosInjective(dir, l, t + 1, l, c);
        if target >= 0 && tiles[target] == tiles[pos] && !merged[target] {
          tiles[target] := tiles[target] + 1;
          tiles[pos] := 0;
          merged[target] := true;
          moved := true;
          MergeTurn(dir, was, now, flags, i, j);
          assert Board() == now[target := now[target] + 1][pos := 0];
          assert merged[..] == flags[target := true];
        } else {
          SlideTurn(dir, was, now, flags, i, j);
          if pos != target0 {
            tiles[target0] := tiles[pos];
            tiles[pos] := 0;
            moved := true;
            assert Board() == now[target0 := now[pos]][pos := 0];
          } else {
            assert now[target0 := now[pos]][pos := now[pos]] == now;
          }
          assert merged[..] == flags;
        }
      } else {
        EmptyTurn(dir, was, now, flags, i, j);
      }
    }

    /**
     TryMove: slides every line to the wall, in place. It tells whether the
     board has changed.
     */
    method TryMove(dir: int) returns (canMove: bool)
      requires Valid() && IsDir(dir)
      modifies tiles
      ensures Valid() && Board() == Slid(old(Board()), dir)
      ensures canMove <==> Board() != old(Board())
    {
      hide Sliding, AnyMoved, Slid, LinePos;
      var x := if dir == DOWN then 1 else 0;
      var y := if dir == RIGHT then 1 else 0;
      canMove := false;
      var merged := new bool[20](_ => false);
      ghost var was := Board();
      SlidingStarts(dir, was, merged[..]);
      for i := 0 to 4
        invariant Valid() && Sliding(dir, was, Board(), merged[..], i, 0)
        invariant canMove <==> AnyMoved(dir, was, i, 0)
        modifies tiles, merged
      {
        for j := 0 to 4
          invariant Valid() && Sliding(dir, was, Board(), merged[..], i, j)
          invariant canMove <==> AnyMoved(dir, was, i, j)
          modifies tiles, merged
        {
          var pos := POS_LIST[x][i] * 4 + POS_LIST[y][j];
          TurnPos(dir, i, j);
          var moved := MoveTile(dir, pos, merged, was, i, j);
          canMove := canMove || moved;
        }
        SlidingTurns(dir, was, Board(), merged[..], i);
      }
      SlidingEnds(dir, was, Board(), merged[..]);
    }

    // -------------------------------------------------------------------
    // Counting lands
    // -------------------------------------------------------------------

    /** Mark: a recursive flood fill. */
    method Mark(pos: int, val: int, marked: array<bool>)
      requires Valid() && marked.Length == 20 && (pos == -1 || IsPos(pos))
      modifies marked
      ensures MarkedBy(Board(), old(marked[..]), marked[..], pos, val, 4)
      decreases Unmarked(marked[..])
    {
      hide MarkedBy, Neighbour;
      ghost var before := marked[..];
      ghost var b := Board();
      if 0 <= pos <= 15 && tiles[pos] == val && !marked[pos] {
        marked[pos] := true;
        assert marked[..] == before[pos := true];
        MarkStarts(b, before, pos, val);
        OneLess(before, pos);
        for dir := 0 to 4
          invariant MarkedBy(b, before, marked[..], pos, val, dir)
          invariant Unmarked(marked[..]) < Unmarked(before)
        {
          ghost var mid := marked[..];
          TableIsNeighbour(pos, dir);
          Mark(DIR_POS[pos][dir], val, marked);
          MarkTurns(b, before, mid, marked[..], pos, val, dir);
          MarkedStays(b, mid, marked[..], Neighbour(pos, dir), val);
        }
      } else {
        MarkNothing(b, before, pos, val);
      }
    }

    /** GetLandNum: the number of connected groups of equal tiles. */
    method GetLandNum() returns (num: nat)
      requires Valid()
      ensures num == LandCount(Board())
    {
      hide MarkedBy, MarkedUpTo, ComponentsBelow;
      ghost var b := Board();
      num := 0;
      var marked := new bool[20](_ => false);
      NothingMarked(b, marked[..]);
      for i := 0 to 16
        invariant MarkedUpTo(b, marked[..], i)
        invariant num == |ComponentsBelow(b, i)|
        modifies marked
      {
        if tiles[i] != 0 && !marked[i] {
          num := num + 1;
          ghost var before := marked[..];
          Mark(i, tiles[i], marked);
          NewLand(b, before, marked[..], i);
        } else {
          OldLand(b, marked[..], i);
        }
      }
    }

    // -------------------------------------------------------------------
    // Candidates
    // -------------------------------------------------------------------

    /** GetAllEmptyPos. */
    method GetAllEmptyPos(posSet: array<int>) returns (size: nat)
      requires Valid() && posSet.Length == 20 && posSet != tiles
      modifies posSet
      ensures size <= 16 && posSet[..size] == EmptyBelow(Board(), 16)
    {
      size := 0;
      for i := 0 to 16
        invariant size <= i && posSet[..size] == EmptyBelow(Board(), i)
      {
        if tiles[i] == 0 {
          posSet[size] := i;
          size := size + 1;
        }
      }
    }

    /** EvalSmoothnessValue. */
    method EvalSmoothnessValue() returns (smooth: int)
      requires Valid()
      ensures smooth == Smoothness(Board(), 16)
    {
      hide Line, LinePos, LineOf, Depth;
      smooth := 0;
      for i := 0 to 16
        invariant smooth == Smoothness(Board(), i)
      {
        if tiles[i] > 0 {
          for dir := 1 to 3
            invariant smooth == Smoothness(Board(), i) - (if dir > 1 then Gap(Board(), i, RIGHT) else 0)
                                                       - (if dir > 2 then Gap(Board(), i, DOWN) else 0)
          {
            var _, target := GetTargetPos(i, dir);
            PlaceBack(dir, i);
            TargetIsTile(Board(), dir, i);
            if target >= 0 && tiles[target] > 0 {
              var d := tiles[i] - tiles[target];
              smooth := smooth - (if d < 0 then -d else d);
            }
          }
        }
      }
    }

    /** The scores of placing one tile in each empty cell; the board is put back each time. */
    method ScoreAll(val: int, emptyPos: array<int>, size: nat) returns (score: array<int>)
      requires Valid() && (val == 1 || val == 2)
      requires emptyPos != tiles && emptyPos.Length == 20 && size <= 16 && emptyPos[..size] == EmptyBelow(Board(), 16)
      modifies tiles
      ensures Valid() && Board() == old(Board())
      ensures fresh(score) && score.Length == 20
      ensures forall j :: 0 <= j < size ==> score[j] == Score(Board(), Placement(emptyPos[j], val))
    {
      hide Smoothness, LandCount, EmptyBelow;
      score := new int[20](_ => 0);
      ghost var b := Board();
      ghost var empty := emptyPos[..size];
      for j := 0 to size
        invariant Valid() && Board() == b
        invariant forall k :: 0 <= k < j ==> score[k] == Score(b, Placement(empty[k], val))
        modifies tiles, score
      {
        assert emptyPos[j] == empty[j];
        tiles[emptyPos[j]] := val;
        assert Board() == b[empty[j] := val];
        var smooth := EvalSmoothnessValue();
        var land := GetLandNum();
        score[j] := -smooth + land;
        tiles[emptyPos[j]] := 0;
        assert Board() == b;
      }
    }

    /** The highest of the scores of both tiles. */
    method MaxScore(score1: array<int>, score2: array<int>, emptyPos: array<int>, size: nat) returns (max: int)
      requires Valid() && HasEmpty(Board()) && score1.Length == score2.Length == emptyPos.Length == 20
      requires size <= 16 && emptyPos[..size] == EmptyBelow(Board(), 16)
      requires forall j :: 0 <= j < size ==> score1[j] == Score(Board(), Placement(emptyPos[j], 1))
      requires forall j :: 0 <= j < size ==> score2[j] == Score(Board(), Placement(emptyPos[j], 2))
      ensures Placements(Board()) != [] && max == TopScore(Board(), Placements(Board()))
    {
      hide Score, EmptyBelow, Keep, TopScore, Placements, AllOpen, Candidates, MaxOf, HasEmpty;
      ghost var b := Board();
      SomeEmpty(b);
      var max1 := ArrayMax(score1, size);
      var max2 := ArrayMax(score2, size);
      MaxOfArray(b, emptyPos[..size], score1, 1, max1);
      MaxOfArray(b, emptyPos[..size], score2, 2, max2);
      TopIsMax(b, max1, max2);
      CandidatesAre(b);
      max := if max1 < max2 then max2 else max1;
    }

    /** Lists the placements of one tile that reach the highest score behind those before. */
    method Select(score: array<int>, emptyPos: array<int>, size: nat, val: int, max: int, ghost before: seq<Placement>,
                  candidatePos: array<int>, candidateVal: array<int>, start: nat)
        returns (n: nat)
      requires Valid() && (val == 1 || val == 2)
      requires emptyPos.Length == 20 && size <= 16 && emptyPos[..size] == EmptyBelow(Board(), 16)
      requires score.Length == candidatePos.Length == candidateVal.Length == 20
      requires {tiles, score, emptyPos} !! {candidatePos, candidateVal} && candidatePos != candidateVal
      requires forall j :: 0 <= j < size ==> score[j] == Score(Board(), Placement(emptyPos[j], val))
      requires var all := before + AllWith(emptyPos[..size], val);
        AllOpen(Board(), all) && |Keep(Board(), all, max)| <= 20
      requires AllOpen(Board(), before) && Lists(candidatePos[..], candidateVal[..], start, Keep(Board(), before, max))
      modifies candidatePos, candidateVal
      ensures Lists(candidatePos[..], candidateVal[..], n, Keep(Board(), before + AllWith(emptyPos[..size], val), max))
    {
      hide Score, EmptyBelow, AllOpen, Keep, AllWith, Lists;
      n := start;
      ghost var b := Board();
      ghost var ps := before;
      ghost var empty := emptyPos[..size];
      WithNothing(before, val);
      for j := 0 to size
        invariant ps == before + AllWith(empty[..j], val)
        invariant AllOpen(b, ps) && Lists(candidatePos[..], candidateVal[..], n, Keep(b, ps, max))
      {
        assert emptyPos[j] == empty[j];
        ghost var p := Placement(empty[j], val);
        EmptyIsOpen(b, j, val);
        KeepSnoc(b, ps, p, max);
        WithOneMore(empty, j, val);
        KeptFits(b, before, empty, j + 1, val, max);
        assert ps + [p] == before + AllWith(empty[..j + 1], val);
        if score[j] == max {
          ghost var pos, vals := candidatePos[..], candidateVal[..];
          ListsHas(pos, vals, n, Keep(b, ps, max));
          ListsOneMore(pos, vals, n, Keep(b, ps, max), p);
          candidatePos[n] := emptyPos[j];
          candidateVal[n] := val;
          assert candidatePos[..] == pos[n := p.pos] && candidateVal[..] == vals[n := p.val];
          n := n + 1;
        } else {
          assert Keep(b, ps, max) + [] == Keep(b, ps, max);
        }
        ps := ps + [p];
      }
      assert empty[..size] == empty;
    }

    /**
     GetCandidateSet: the placements worst for the player, in two arrays of
     twenty. Some cell must be empty, and some not.
     */
    method GetCandidateSet(candidatePos: array<int>, candidateVal: array<int>) returns (n: nat)
      requires Valid() && HasEmpty(Board()) && HasTile(Board())
      requires candidatePos.Length == candidateVal.Length == 20
      requires tiles != candidatePos && tiles != candidateVal && candidatePos != candidateVal
      modifies tiles, candidatePos, candidateVal
      ensures Valid() && Board() == old(Board())
      ensures 0 < n <= 20 && Lists(candidatePos[..], candidateVal[..], n, Candidates(Board()))
    {
      hide Score, EmptyBelow, Keep, TopScore, AllWith, Placements, AllOpen, Candidates, MaxOf, HasEmpty, HasTile, Lists;
      ghost var b := Board();
      var emptyPos := new int[20](_ => 0);
      var size := GetAllEmptyPos(emptyPos);
      ghost var empty := emptyPos[..size];
      PlacementsAre(b);
      NothingKept(b, 0);
      var score1 := ScoreAll(1, emptyPos, size);
      var score2 := ScoreAll(2, emptyPos, size);
      var max := MaxScore(score1, score2, emptyPos, size);
      NothingKept(b, max);
      CandidatesAre(b);
      CandidatesFit(b);
      NothingListed(candidatePos[..], candidateVal[..]);
      n := Select(score1, emptyPos, size, 1, max, [], candidatePos, candidateVal, 0);
      n := Select(score2, emptyPos, size, 2, max, AllWith(empty, 1), candidatePos, candidateVal, n);
      ListsHas(candidatePos[..], candidateVal[..], n, Candidates(b));
    }

    // -------------------------------------------------------------------
    // Searching
    // -------------------------------------------------------------------

    /** IsWin: some tile is 2048. */
    method HasWon() returns (won: bool)
      requires Valid()
      ensures won == IsWin(Board())
    {
      for i := 0 to 16
        invariant forall j :: 0 <= j < i ==> tiles[j] != 11
      {
        if tiles[i] == 11 {
          assert Board()[i] == 11;
          return true;
        }
      }
      return false;
    }

    /** What a search from a player's board leaves in bestMove. */
    ghost predicate MoveFound(depth: int, alpha: real, beta: real)
      reads this, tiles
      requires Valid() && depth > 0
    {
      var best := BestOf(eval, Board(), depth, 4);
      if !Less(best, Is(beta)) then FirstCut(eval, Board(), depth, beta, bestMove)
      else if Less(Is(alpha), best) then FirstBest(eval, Board(), depth, 4, bestMove)
      else bestMove == -1
    }

    /**
     MiniMaxSearch: alpha-beta. Inside the window its score is the exhaustive
     minimax value; outside, it is on the same side. The board is not changed,
     and only a player's search sets bestMove.
     */
    method MiniMaxSearch(depth: int, isPlayer: bool, alpha: real, beta: real) returns (score: real)
      requires Valid() && alpha < beta && (isPlayer || (HasEmpty(Board()) && HasTile(Board())))
      modifies this, tiles
      ensures Valid() && Board() == old(Board())
      ensures Clamp(Is(score), alpha, beta) == Clamp(Value(eval, Board(), depth, isPlayer), alpha, beta)
      ensures if isPlayer && depth > 0 && !IsWin(Board()) then MoveFound(depth, alpha, beta) else bestMove == old(bestMove)
      decreases Rounds(depth), if isPlayer then 1 else 3
    {
      hide BestOf, WorstOf, IsWin, HasEmpty, HasTile, Candidates, MoveFound, Clamp;
      var won := HasWon();
      if depth <= 0 || won {
        return eval(tiles[..16]);
      }
      if isPlayer {
        PlayerValue(eval, Board(), depth);
        score := SearchMoves(depth, alpha, beta);
      } else {
        ComputerValue(eval, Board(), depth);
        score := SearchReplies(depth, alpha, beta);
      }
    }

    /** The player's loop over the four directions. */
    method SearchMoves(depth: int, alpha0: real, beta: real) returns (score: real)
      requires Valid() && alpha0 < beta && depth > 0
      modifies this, tiles
      ensures Valid() && Board() == old(Board())
      ensures Clamp(Is(score), alpha0, beta) == Clamp(BestOf(eval, Board(), depth, 4), alpha0, beta)
      ensures MoveFound(depth, alpha0, beta)
      decreases Rounds(depth), 0
    {
      hide FirstBest, FirstCut, BestOf, Slid, HasEmpty, HasTile, PlayerSoFar, AfterMove, Value, Clamp, Less;
      ghost var b := Board();
      var alpha := alpha0;
      bestMove := -1;
      var newAi := new AI2048(eval);
      PlayerStarts(eval, b, depth, alpha, beta);
      for dir := 0 to 4
        invariant Valid() && Board() == b && newAi.tiles.Length == 20 && newAi.eval == eval
        invariant fresh(newAi) && fresh(newAi.tiles)
        invariant PlayerSoFar(eval, b, depth, alpha0, beta, dir, alpha, bestMove) && alpha < beta
        modifies `bestMove, newAi, newAi.tiles
      {
        newAi.CopyTilesFrom(this);
        var canMove := newAi.TryMove(dir);
        if !canMove {
          PlayerSkips(eval, b, depth, alpha0, beta, dir, alpha, bestMove);
          continue;
        }
        MovedHasEmpty(b, dir);
        MovedHasTile(b, dir);
        AfterMoveIs(eval, b, depth, dir);
        score := newAi.MiniMaxSearch(depth - 1, false, alpha, beta);
        PlayerLooks(eval, b, depth, alpha0, beta, dir, alpha, bestMove, score);
        if score > alpha {
          alpha := score;
          bestMove := dir;
        }
        if beta <= alpha {
          AtBeta(alpha0, beta);
          return beta;
        }
      }
      PlayerEnds(eval, b, depth, alpha0, beta, alpha, bestMove);
      return alpha;
    }

    /** The computer's loop over its candidates. */
    method SearchReplies(depth: int, alpha: real, beta0: real) returns (score: real)
      requires Valid() && alpha < beta0 && depth > 0 && HasEmpty(Board()) && HasTile(Board())
      modifies tiles
      ensures Valid() && Board() == old(Board())
      ensures AllOpen(Board(), Candidates(Board()))
      ensures Clamp(Is(score), alpha, beta0) == Clamp(WorstOf(eval, Board(), depth, Candidates(Board())), alpha, beta0)
      decreases Rounds(depth), 2
    {
      hide WorstOf, HasEmpty, HasTile, Candidates, AllOpen, ComputerSoFar, Lists;
      ghost var b := Board();
      var beta := beta0;
      var candidatePos, candidateVal := new int[20](_ => 0), new int[20](_ => 0);
      var n := GetCandidateSet(candidatePos, candidateVal);
      ghost var cs := Candidates(b);
      ListsHas(candidatePos[..], candidateVal[..], n, cs);
      CandidatesOpen(b);
      var newAi := new AI2048(eval);
      ComputerStarts(eval, b, depth, alpha, beta, cs);
      for i := 0 to n
        invariant Valid() && Board() == b && newAi.tiles.Length == 20 && newAi.eval == eval
        invariant fresh(newAi) && fresh(newAi.tiles)
        invariant ComputerSoFar(eval, b, depth, alpha, beta0, cs, i, beta) && alpha < beta
        modifies newAi, newAi.tiles
      {
        newAi.CopyTilesFrom(this);
        OpenAt(b, cs, i);
        assert cs[i] == Placement(candidatePos[i], candidateVal[i]);
        newAi.tiles[candidatePos[i]] := candidateVal[i];
        assert newAi.Board() == b[cs[i].pos := cs[i].val];
        AfterReplyIs(eval, b, depth, cs[i]);
        score := newAi.MiniMaxSearch(depth, true, alpha, beta);
        ComputerLooks(eval, b, depth, alpha, beta0, cs, i, beta, score);
        if score < beta {
          beta := score;
        }
        if beta <= alpha {
          return alpha;
        }
      }
      ComputerEnds(eval, b, depth, alpha, beta0, cs, beta);
      return beta;
    }

    /**
     GetPlayerBestMove, with the number of searches the clock leaves time for.
     On a board that is not won the answer is a legal move when there is one,
     and 0 when there is none. On a board that is won no search sets bestMove,
     so the answer is the move it was left with, or 0 when that is none.
     */
    method GetPlayerBestMove(searches: nat) returns (move: int)
      requires Valid() && Bounded(eval, INF)
      modifies this, tiles
      ensures Valid() && Board() == old(Board())
      ensures !IsWin(Board()) && searches > 0 ==>
        if exists d :: IsDir(d) && CanMove(Board(), d) then IsDir(move) && CanMove(Board(), move) else move == 0
      ensures searches == 0 ==> move == 0 && bestMove == old(bestMove)
      ensures IsWin(Board()) && searches > 0 ==> move == (if old(bestMove) == -1 then 0 else old(bestMove))
    {
      hide BestOf, IsWin, CanMove;
      move := 0;
      ghost var b := Board();
      ghost var legal := exists d :: IsDir(d) && CanMove(b, d);
      var depth, n := 1, 0;
      while n < searches
        invariant Valid() && Board() == b && depth == n + 1
        invariant n > 0 && !IsWin(b) && legal ==> IsDir(move) && CanMove(b, move)
        invariant !IsWin(b) && !legal ==> move == 0
        invariant n <= searches && (n == 0 ==> move == 0 && bestMove == old(bestMove))
        invariant n > 0 && IsWin(b) ==> bestMove == old(bestMove) == move && move != -1
        decreases searches - n
      {
        var newScore := MiniMaxSearch(depth, true, -INF, INF);
        if !IsWin(b) {
          RootMove(eval, b, depth, bestMove);
        }
        if bestMove == -1 {
          break;
        }
        WonIsAlive(eval, b, depth);
        ScoreBeatsNothing(eval, b, depth, newScore);
        if newScore > -INF {
          move := bestMove;
        }
        depth, n := depth + 1, n + 1;
      }
    }
  }
}
