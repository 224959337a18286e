/**
 The search of the 2048 player as mathematics: which replies the computer
 considers, and the exhaustive minimax value of a board.
 */
module Minimax {
  import opened Grid
  import opened SlideSteps
  import opened Lands

  // ---------------------------------------------------------------------
  // The computer's candidates
  // ---------------------------------------------------------------------

  /** A new tile in an empty cell. */
  datatype Placement = Placement(pos: int, val: int)

  /** The empty cells among the first n, in order. */
  function EmptyBelow(b: seq<int>, n: int): (ps: seq<int>)
    requires |b| == 16 && 0 <= n <= 16
    ensures forall i :: 0 <= i < |ps| ==> 0 <= ps[i] < n && b[ps[i]] == 0
    ensures forall p :: 0 <= p < n && b[p] == 0 ==> p in ps
    ensures |ps| <= n
  {
    if n == 0 then [] else EmptyBelow(b, n - 1) + if b[n - 1] == 0 then [n - 1] else []
  }

  /** The difference to the nearest tile in a direction. */
  function Gap(b: seq<int>, pos: int, dir: int): int
    requires |b| == 16 && IsPos(pos) && IsDir(dir)
  {
    var l := LineOf(dir, pos);
    var t := TargetIndex(Line(b, dir, l), Depth(dir, pos));
    if b[pos] <= 0 || t < 0 then 0
    else
      var d := b[pos] - b[LinePos(dir, l, t)];
      if d < 0 then -d else d
  }

  /** How uneven the board is: minus the gaps to the right and below. */
  function Smoothness(b: seq<int>, n: int): int
    requires |b| == 16 && 0 <= n <= 16
  {
    if n == 0 then 0 else Smoothness(b, n - 1) - Gap(b, n - 1, RIGHT) - Gap(b, n - 1, DOWN)
  }

  predicate Open(b: seq<int>, p: Placement) {
    |b| == 16 && IsPos(p.pos) && b[p.pos] == 0 && (p.val == 1 || p.val == 2)
  }

  predicate AllOpen(b: seq<int>, ps: seq<Placement>) {
    forall i :: 0 <= i < |ps| ==> Open(b, ps[i])
  }

  /** How bad a placement is for the player. */
  ghost function Score(b: seq<int>, p: Placement): int
    requires |b| == 16 && IsPos(p.pos)
  {
    var after := b[p.pos := p.val];
    -Smoothness(after, 16) + LandCount(after)
  }

  function AllWith(ps: seq<int>, val: int): (r: seq<Placement>)
    ensures |r| == |ps| && forall i :: 0 <= i < |ps| ==> r[i] == Placement(ps[i], val)
  {
    seq(|ps|, i requires 0 <= i < |ps| => Placement(ps[i], val))
  }

  /** Every placement, the ones of tile 1 first. */
  function Placements(b: seq<int>): (ps: seq<Placement>)
    requires |b| == 16
    ensures AllOpen(b, ps)
  {
    var e := EmptyBelow(b, 16);
    AllWith(e, 1) + AllWith(e, 2)
  }

  ghost function TopScore(b: seq<int>, ps: seq<Placement>): int
    requires ps != [] && AllOpen(b, ps)
  {
    var n := |ps| - 1;
    assert Open(b, ps[n]);
    if n == 0 then Score(b, ps[n])
    else
      var top := TopScore(b, ps[..n]);
      if top < Score(b, ps[n]) then Score(b, ps[n]) else top
  }

  ghost function Keep(b: seq<int>, ps: seq<Placement>, score: int): seq<Placement>
    requires AllOpen(b, ps)
  {
    if ps == [] then []
    else
      var n := |ps| - 1;
      assert Open(b, ps[n]);
      Keep(b, ps[..n], score) + if Score(b, ps[n]) == score then [ps[n]] else []
  }

  /** The placements of the highest score, in order. */
  ghost function Candidates(b: seq<int>): seq<Placement>
    requires |b| == 16
  {
    var ps := Placements(b);
    if ps == [] then [] else Keep(b, ps, TopScore(b, ps))
  }

  lemma {:induction false} TopScoreIsTop(b: seq<int>, ps: seq<Placement>)
    requires ps != [] && AllOpen(b, ps)
    ensures forall i :: 0 <= i < |ps| ==> Open(b, ps[i]) && Score(b, ps[i]) <= TopScore(b, ps)
    ensures exists i :: 0 <= i < |ps| && Open(b, ps[i]) && Score(b, ps[i]) == TopScore(b, ps)
  {
    hide Score;
    var n := |ps| - 1;
    assert Open(b, ps[n]);
    if n > 0 {
      TopScoreIsTop(b, ps[..n]);
      var j :| 0 <= j < n && Open(b, ps[..n][j]) && Score(b, ps[..n][j]) == TopScore(b, ps[..n]);
      assert Open(b, ps[j]) && Score(b, ps[j]) == TopScore(b, ps[..n]);
      assert forall i :: 0 <= i < n ==> ps[..n][i] == ps[i];
    }
  }

  lemma {:induction false} KeepSpec(b: seq<int>, ps: seq<Placement>, score: int)
    requires AllOpen(b, ps)
    ensures var ks := Keep(b, ps, score);
      && |ks| <= |ps|
      && (forall i :: 0 <= i < |ks| ==> Open(b, ks[i]) && Score(b, ks[i]) == score && ks[i] in ps)
      && (forall i :: 0 <= i < |ps| && Score(b, ps[i]) == score ==> ps[i] in ks)
  {
    hide Score;
    if ps != [] {
      var n := |ps| - 1;
      KeepSpec(b, ps[..n], score);
      assert forall i :: 0 <= i < n ==> ps[..n][i] == ps[i];
    }
  }

  /**
   The candidates are exactly the placements no other placement beats; there is
   one whenever a cell is empty, and never more than two to an empty cell.
   */
  lemma CandidatesSpec(b: seq<int>)
    requires |b| == 16
    ensures AllOpen(b, Candidates(b))
    ensures forall p: Placement :: p in Candidates(b) <==>
      Open(b, p) && forall q: Placement :: Open(b, q) ==> Score(b, q) <= Score(b, p)
    ensures Candidates(b) != [] <==> HasEmpty(b)
    ensures |Candidates(b)| <= 2 * |EmptyBelow(b, 16)|
    ensures |EmptyBelow(b, 16)| <= 10 ==> |Candidates(b)| <= 20
  {
    hide Score, Smoothness;
    var ps := Placements(b);
    forall q: Placement | Open(b, q)
      ensures q in ps
    {
      OpenIsListed(b, q);
    }
    if ps != [] {
      TopScoreIsTop(b, ps);
      KeepSpec(b, ps, TopScore(b, ps));
      assert Open(b, ps[0]);
    } else {
      NoneOpen(b);
    }
  }

  lemma OpenIsListed(b: seq<int>, q: Placement)
    requires Open(b, q)
    ensures q in Placements(b)
  {
    var e := EmptyBelow(b, 16);
    var i :| 0 <= i < |e| && e[i] == q.pos;
    assert AllWith(e, q.val)[i] == q;
  }

  lemma NoneOpen(b: seq<int>)
    requires |b| == 16 && Placements(b) == []
    ensures !HasEmpty(b)
  {
    if p :| 0 <= p < 16 && b[p] == 0 {
      OpenIsListed(b, Placement(p, 1));
    }
  }

  /** On a board with one tile nothing is uneven, and there is one land. */
  lemma LonelyTile(b: seq<int>, p: int)
    requires IsBoard(b) && IsPos(p) && b[p] > 0 && forall q :: 0 <= q < 16 && q != p ==> b[q] == 0
    ensures Smoothness(b, 16) == 0 && LandCount(b) == 1
  {
    hide Line, LinePos, LineOf, Depth, Connected;
    LonelySmooth(b, p, 16);
    assert ComponentsBelow(b, 16) == {Component(b, p)};
  }

  lemma {:induction false} LonelySmooth(b: seq<int>, p: int, n: int)
    requires IsBoard(b) && IsPos(p) && 0 <= n <= 16 && forall q :: 0 <= q < 16 && q != p ==> b[q] == 0
    ensures Smoothness(b, n) == 0
  {
    hide Gap;
    if n > 0 {
      LonelySmooth(b, p, n - 1);
      LonelyGap(b, p, n - 1, RIGHT);
      LonelyGap(b, p, n - 1, DOWN);
    }
  }

  lemma LonelyGap(b: seq<int>, p: int, q: int, dir: int)
    requires IsBoard(b) && IsPos(p) && IsPos(q) && IsDir(dir) && forall x :: 0 <= x < 16 && x != p ==> b[x] == 0
    ensures Gap(b, q, dir) == 0
  {
    hide Line, LinePos, LineOf, Depth;
    if b[q] > 0 {
      var l, k := LineOf(dir, q), Depth(dir, q);
      PlaceBack(dir, q);
      forall j | 0 <= j < k
        ensures Line(b, dir, l)[j] == 0
      {
        LineAt(b, dir, l, j);
        LinePosInjective(dir, l, j, l, k);
      }
      TargetIndexAt(Line(b, dir, l), k, -1);
    }
  }

  lemma PlaceBack(dir: int, pos: int)
    requires IsDir(dir) && IsPos(pos)
    ensures LinePos(dir, LineOf(dir, pos), Depth(dir, pos)) == pos
  {
  }

  lemma {:induction false} KeepAll(b: seq<int>, ps: seq<Placement>, score: int)
    requires AllOpen(b, ps) && forall i :: 0 <= i < |ps| ==> Open(b, ps[i]) && Score(b, ps[i]) == score
    ensures Keep(b, ps, score) == ps
  {
    hide Score;
    if ps != [] {
      var n := |ps| - 1;
      KeepAll(b, ps[..n], score);
      assert ps[..n] + [ps[n]] == ps;
    }
  }

  lemma {:induction false} EmptyOfZeros(b: seq<int>, n: int)
    requires |b| == 16 && 0 <= n <= 16 && forall q :: 0 <= q < 16 ==> b[q] == 0
    ensures |EmptyBelow(b, n)| == n
  {
    if n > 0 {
      EmptyOfZeros(b, n - 1);
    }
  }

  /**
   On the empty board all thirty-two placements tie, so the program's arrays of
   twenty candidates are too short for it.
   */
  lemma EmptyBoardTies(b: seq<int>)
    requires |b| == 16 && forall q :: 0 <= q < 16 ==> b[q] == 0
    ensures |Candidates(b)| == 32
  {
    hide Smoothness, LandCount, Keep, TopScore;
    var ps := Placements(b);
    EmptyOfZeros(b, 16);
    forall i | 0 <= i < |ps|
      ensures Open(b, ps[i]) && Score(b, ps[i]) == 1
    {
      LonelyTile(b[ps[i].pos := ps[i].val], ps[i].pos);
    }
    TopScoreIsTop(b, ps);
    KeepAll(b, ps, 1);
  }

  // ---------------------------------------------------------------------
  // Values
  // ---------------------------------------------------------------------

  /** A value, or one of the two limits: a player without a move, and no reply looked at yet. */
  datatype Worth = Dead | Is(v: real) | Top

  predicate Less(a: Worth, b: Worth) {
    match (a, b)
    case (Is(x), Is(y)) => x < y
    case _ => (a.Dead? && !b.Dead?) || (b.Top? && !a.Top?)
  }

  function Larger(a: Worth, b: Worth): Worth {
    if Less(a, b) then b else a
  }

  function Smaller(a: Worth, b: Worth): Worth {
    if Less(b, a) then b else a
  }

  /** The value as seen through the window between alpha and beta. */
  function Clamp(w: Worth, alpha: real, beta: real): real {
    match w
    case Dead => alpha
    case Top => beta
    case Is(v) => if v < alpha then alpha else if v > beta then beta else v
  }

  predicate IsWin(b: seq<int>) {
    |b| == 16 && exists p :: 0 <= p < 16 && b[p] == 11
  }

  lemma {:induction false} PowerOfTwo(n: nat)
    ensures n < 11 ==> Pow2(n) < 2048
    ensures n == 11 ==> Pow2(n) == 2048
    ensures n > 11 ==> Pow2(n) > 2048
  {
    if n > 0 {
      PowerOfTwo(n - 1);
    }
    if n <= 11 {
      assert Pow2(4) == 16 && Pow2(8) == 256 && Pow2(10) == 1024;
      assert Pow2(1) == 2 && Pow2(2) == 4 && Pow2(3) == 8 && Pow2(5) == 32 && Pow2(6) == 64 && Pow2(7) == 128 && Pow2(9) == 512;
    }
  }

  /** A board is won exactly when some tile shows 2048. */
  lemma WonIs2048(b: seq<int>)
    requires IsBoard(b)
    ensures IsWin(b) <==> exists p :: 0 <= p < 16 && Face(b[p]) == 2048
  {
    forall p | 0 <= p < 16
      ensures Face(b[p]) == 2048 <==> b[p] == 11
    {
      PowerOfTwo(b[p]);
    }
  }

  function Rounds(depth: int): nat {
    if depth > 0 then depth else 0
  }

  /** Exhaustive minimax: every move, every candidate, no cut-offs. */
  ghost function Value(eval: seq<int> -> real, b: seq<int>, depth: int, player: bool): Worth
    requires IsBoard(b)
    decreases Rounds(depth), if player then 1 else 3, 0
  {
    if depth <= 0 || IsWin(b) then Is(eval(b))
    else if player then BestOf(eval, b, depth, 4)
    else
      CandidatesSpec(b);
      WorstOf(eval, b, depth, Candidates(b))
  }

  /** The best of the first n directions. */
  ghost function BestOf(eval: seq<int> -> real, b: seq<int>, depth: int, n: int): Worth
    requires IsBoard(b) && depth > 0 && 0 <= n <= 4
    decreases Rounds(depth), 0, n
  {
    if n == 0 then Dead
    else if CanMove(b, n - 1) then Larger(BestOf(eval, b, depth, n - 1), AfterMove(eval, b, depth, n - 1))
    else BestOf(eval, b, depth, n - 1)
  }

  ghost function AfterMove(eval: seq<int> -> real, b: seq<int>, depth: int, dir: int): Worth
    requires IsBoard(b) && depth > 0 && IsDir(dir)
    decreases Rounds(depth), 0, 0
  {
    SlidIsBoard(b, dir);
    Value(eval, Slid(b, dir), depth - 1, false)
  }

  /** The worst of some placements. */
  ghost function WorstOf(eval: seq<int> -> real, b: seq<int>, depth: int, cs: seq<Placement>): Worth
    requires IsBoard(b) && depth > 0 && AllOpen(b, cs)
    decreases Rounds(depth), 2, |cs|
  {
    if cs == [] then Top
    else
      var n := |cs| - 1;
      Smaller(WorstOf(eval, b, depth, cs[..n]), AfterReply(eval, b, depth, cs[n]))
  }

  ghost function AfterReply(eval: seq<int> -> real, b: seq<int>, depth: int, p: Placement): Worth
    requires IsBoard(b) && depth > 0 && Open(b, p)
    decreases Rounds(depth), 2, 0
  {
    Value(eval, b[p.pos := p.val], depth, true)
  }

  // ---------------------------------------------------------------------
  // What one turn of a search loop knows
  // ---------------------------------------------------------------------

  /** The first of the directions below n that reaches the best of them. */
  ghost predicate FirstBest(eval: seq<int> -> real, b: seq<int>, depth: int, n: int, move: int)
    requires IsBoard(b) && depth > 0 && 0 <= n <= 4
  {
    && 0 <= move < n && CanMove(b, move)
    && AfterMove(eval, b, depth, move) == BestOf(eval, b, depth, n)
    && forall d :: 0 <= d < move && CanMove(b, d) ==> Less(AfterMove(eval, b, depth, d), BestOf(eval, b, depth, n))
  }

  /** The first direction that reaches beta. */
  ghost predicate FirstCut(eval: seq<int> -> real, b: seq<int>, depth: int, beta: real, move: int)
    requires IsBoard(b) && depth > 0
  {
    && IsDir(move) && CanMove(b, move) && !Less(AfterMove(eval, b, depth, move), Is(beta))
    && forall d :: 0 <= d < move && CanMove(b, d) ==> Less(AfterMove(eval, b, depth, d), Is(beta))
  }

  /** The player's loop before direction n. */
  ghost predicate PlayerSoFar(eval: seq<int> -> real, b: seq<int>, depth: int, alpha0: real, beta: real,
                              n: int, alpha: real, move: int)
    requires IsBoard(b) && depth > 0 && 0 <= n <= 4
  {
    && alpha0 <= alpha < beta
    && alpha == Clamp(BestOf(eval, b, depth, n), alpha0, beta)
    && Less(BestOf(eval, b, depth, n), Is(beta))
    && (if Less(Is(alpha0), BestOf(eval, b, depth, n)) then FirstBest(eval, b, depth, n, move) else move == -1)
  }

  lemma {:induction false} BestBounds(eval: seq<int> -> real, b: seq<int>, depth: int, m: int, n: int)
    requires IsBoard(b) && depth > 0 && 0 <= m <= n <= 4
    ensures !Less(BestOf(eval, b, depth, n), BestOf(eval, b, depth, m))
    ensures forall d :: 0 <= d < n && CanMove(b, d) ==> !Less(BestOf(eval, b, depth, n), AfterMove(eval, b, depth, d))
    decreases n
  {
    hide AfterMove, CanMove;
    if n > 0 {
      BestBounds(eval, b, depth, if m < n then m else n - 1, n - 1);
    }
  }

  /** An illegal direction is passed over. */
  lemma PlayerSkips(eval: seq<int> -> real, b: seq<int>, depth: int, alpha0: real, beta: real, n: int, alpha: real, move: int)
    requires IsBoard(b) && depth > 0 && 0 <= n < 4 && !CanMove(b, n)
    requires PlayerSoFar(eval, b, depth, alpha0, beta, n, alpha, move)
    ensures PlayerSoFar(eval, b, depth, alpha0, beta, n + 1, alpha, move)
  {
    hide AfterMove, CanMove;
  }

  /** A score that agrees with the child's value inside the window updates alpha correctly, or cuts off. */
  lemma PlayerLooks(eval: seq<int> -> real, b: seq<int>, depth: int, alpha0: real, beta: real,
                    n: int, alpha: real, move: int, score: real)
    requires IsBoard(b) && depth > 0 && 0 <= n < 4 && CanMove(b, n)
    requires PlayerSoFar(eval, b, depth, alpha0, beta, n, alpha, move)
    requires Clamp(Is(score), alpha, beta) == Clamp(AfterMove(eval, b, depth, n), alpha, beta)
    ensures var alpha' := if score > alpha then score else alpha;
      var move' := if score > alpha then n else move;
      if beta <= alpha' then
        && Clamp(BestOf(eval, b, depth, 4), alpha0, beta) == beta
        && !Less(BestOf(eval, b, depth, 4), Is(beta))
        && FirstCut(eval, b, depth, beta, move')
      else PlayerSoFar(eval, b, depth, alpha0, beta, n + 1, alpha', move')
  {
    hide AfterMove, CanMove;
    BestBounds(eval, b, depth, n, n);
    BestBounds(eval, b, depth, n + 1, 4);
  }

  /** The computer's loop before candidate n. */
  ghost predicate ComputerSoFar(eval: seq<int> -> real, b: seq<int>, depth: int, alpha: real, beta0: real,
                                cs: seq<Placement>, n: int, beta: real)
    requires IsBoard(b) && depth > 0 && 0 <= n <= |cs| && AllOpen(b, cs)
  {
    && alpha < beta <= beta0
    && beta == Clamp(WorstOf(eval, b, depth, cs[..n]), alpha, beta0)
  }

  lemma {:induction false} WorstBounds(eval: seq<int> -> real, b: seq<int>, depth: int, cs: seq<Placement>, n: nat)
    requires IsBoard(b) && depth > 0 && n <= |cs| && AllOpen(b, cs)
    ensures !Less(WorstOf(eval, b, depth, cs[..n]), WorstOf(eval, b, depth, cs))
    decreases |cs|
  {
    hide AfterReply, Open;
    if n < |cs| {
      var m := |cs| - 1;
      WorstBounds(eval, b, depth, cs[..m], n);
      assert cs[..m][..n] == cs[..n];
    } else {
      assert cs[..n] == cs;
    }
  }

  lemma ComputerLooks(eval: seq<int> -> real, b: seq<int>, depth: int, alpha: real, beta0: real,
                      cs: seq<Placement>, n: int, beta: real, score: real)
    requires IsBoard(b) && depth > 0 && 0 <= n < |cs| && AllOpen(b, cs)
    requires ComputerSoFar(eval, b, depth, alpha, beta0, cs, n, beta)
    requires Clamp(Is(score), alpha, beta) == Clamp(AfterReply(eval, b, depth, cs[n]), alpha, beta)
    ensures var beta' := if score < beta then score else beta;
      if beta' <= alpha then Clamp(WorstOf(eval, b, depth, cs), alpha, beta0) == alpha
      else ComputerSoFar(eval, b, depth, alpha, beta0, cs, n + 1, beta')
  {
    hide AfterReply, Open;
    assert cs[..n + 1][..n] == cs[..n];
    WorstBounds(eval, b, depth, cs, n + 1);
  }

  // ---------------------------------------------------------------------
  // Evaluations inside the window
  // ---------------------------------------------------------------------

  ghost predicate Bounded(eval: seq<int> -> real, inf: real) {
    forall b: seq<int> :: -inf < eval(b) < inf
  }

  /** A value that a player can be given: none, or one inside the window. */
  predicate Inside(w: Worth, inf: real) {
    w.Dead? || (w.Is? && -inf < w.v < inf)
  }

  /** With evaluations inside the window every value is, except a lost player's. */
  lemma {:induction false} ValueInside(eval: seq<int> -> real, inf: real, b: seq<int>, depth: int, player: bool)
    requires IsBoard(b) && Bounded(eval, inf) && (player || HasEmpty(b))
    ensures Inside(Value(eval, b, depth, player), inf)
    decreases Rounds(depth), if player then 1 else 3, 0
  {
    hide CanMove, Score, IsWin;
    if depth > 0 && !IsWin(b) {
      if player {
        BestInside(eval, inf, b, depth, 4);
      } else {
        ComputerValue(eval, b, depth);
        WorstInside(eval, inf, b, depth, Candidates(b));
      }
    }
  }

  lemma {:induction false} BestInside(eval: seq<int> -> real, inf: real, b: seq<int>, depth: int, n: int)
    requires IsBoard(b) && Bounded(eval, inf) && depth > 0 && 0 <= n <= 4
    ensures Inside(BestOf(eval, b, depth, n), inf)
    decreases Rounds(depth), 0, n
  {
    hide Slid, HasEmpty, Value;
    if n > 0 {
      BestInside(eval, inf, b, depth, n - 1);
      if CanMove(b, n - 1) {
        MovedHasEmpty(b, n - 1);
        SlidIsBoard(b, n - 1);
        ValueInside(eval, inf, Slid(b, n - 1), depth - 1, false);
      }
    }
  }

  lemma {:induction false} WorstInside(eval: seq<int> -> real, inf: real, b: seq<int>, depth: int, cs: seq<Placement>)
    requires IsBoard(b) && Bounded(eval, inf) && depth > 0 && AllOpen(b, cs)
    ensures cs != [] ==> Inside(WorstOf(eval, b, depth, cs), inf)
    decreases Rounds(depth), 2, |cs|
  {
    hide Value;
    if cs != [] {
      var n := |cs| - 1;
      WorstInside(eval, inf, b, depth, cs[..n]);
      assert Open(b, cs[n]);
      ValueInside(eval, inf, b[cs[n].pos := cs[n].val], depth, true);
    }
  }

  // ---------------------------------------------------------------------
  // When the search finds no move
  // ---------------------------------------------------------------------

  /** A board on which two moves are possible and each lets the computer end the game. */
  const TRAP := seq(16, (p: int) => if p == 0 then 0 else Pattern(p))

  /** 3 to 6 and 7 to 10 on alternating rows: no two neighbours are equal. */
  function Pattern(p: int): int {
    if p < 8 then 3 + p else p - 5
  }

  /** The player is lost after the reply, two plies on, whatever the evaluation. */
  lemma StuckIsDead(eval: seq<int> -> real, b: seq<int>, depth: int)
    requires IsBoard(b) && Stuck(b) && depth > 0 && !IsWin(b)
    ensures Value(eval, b, depth, true) == Dead
  {
    hide Stuck, CanMove;
    forall dir | IsDir(dir)
      ensures !CanMove(b, dir)
    {
      StuckCannotMove(b, dir);
    }
    assert BestOf(eval, b, depth, 1) == BestOf(eval, b, depth, 0) == Dead;
    assert BestOf(eval, b, depth, 2) == BestOf(eval, b, depth, 1);
    assert BestOf(eval, b, depth, 3) == BestOf(eval, b, depth, 2);
  }

  /** If every reply leaves the player stuck, the computer has won. */
  lemma RepliesThatEnd(eval: seq<int> -> real, b: seq<int>, depth: int)
    requires IsBoard(b) && HasEmpty(b) && depth > 0 && !IsWin(b)
    requires forall p: Placement :: Open(b, p) ==> Stuck(b[p.pos := p.val]) && !IsWin(b[p.pos := p.val])
    ensures Value(eval, b, depth, false) == Dead
  {
    hide Stuck, IsWin, Value, Score;
    CandidatesSpec(b);
    var cs := Candidates(b);
    var n := |cs| - 1;
    assert Open(b, cs[n]);
    StuckIsDead(eval, b[cs[n].pos := cs[n].val], depth);
    ComputerValue(eval, b, depth);
  }

  lemma ComputerValue(eval: seq<int> -> real, b: seq<int>, depth: int)
    requires IsBoard(b) && HasEmpty(b) && depth > 0 && !IsWin(b)
    ensures Candidates(b) != [] && AllOpen(b, Candidates(b))
    ensures Value(eval, b, depth, false) == WorstOf(eval, b, depth, Candidates(b))
  {
    hide Score;
    CandidatesSpec(b);
  }

  /** The board after the left move, and after the move up, with v in the empty cell. */
  function TrapLeft(v: int): (b: seq<int>)
    ensures |b| == 16
  {
    seq(16, (p: int) => if p < 3 then Pattern(p + 1) else if p == 3 then v else Pattern(p))
  }

  function TrapUp(v: int): (b: seq<int>)
    ensures |b| == 16
  {
    seq(16, (p: int) => if p % 4 != 0 then Pattern(p) else if p < 12 then Pattern(p + 4) else v)
  }

  lemma ShiftedLine(x: int, y: int, z: int)
    requires x > 0 && y > 0 && z > 0 && x != y && y != z
    ensures Slide([0, x, y, z]) == [x, y, z, 0] == Slide([x, y, z, 0])
  {
    hide DropZeros, Merge;
    var u := [x, y, z];
    NoZerosToDrop(u);
    StuckMerge(u);
    DropFirst(u);
    DropLast(u);
    assert [0] + u == [0, x, y, z] && u + [0] == [x, y, z, 0];
    assert u + Zeros(1) == [x, y, z, 0];
  }

  lemma DropFirst(s: seq<int>)
    ensures DropZeros([0] + s) == DropZeros(s)
  {
    assert ([0] + s)[1..] == s;
  }

  lemma {:induction false} DropLast(s: seq<int>)
    ensures DropZeros(s + [0]) == DropZeros(s)
  {
    if s == [] {
      assert ([] + [0])[1..] == [];
    } else {
      assert (s + [0])[1..] == s[1..] + [0];
      DropLast(s[1..]);
    }
  }

  lemma FullLine(s: seq<int>)
    requires |s| == 4 && (forall i :: 0 <= i < 4 ==> s[i] > 0) && forall i :: 0 <= i < 3 ==> s[i] != s[i + 1]
    ensures Slide(s) == s
  {
    NoZerosToDrop(s);
    StuckMerge(s);
    assert s + Zeros(0) == s;
  }

  /** The line that changes. */
  lemma TrapFirstLine(dir: int)
    requires IsDir(dir)
    ensures var b := if dir == LEFT then TrapLeft(0) else if dir == UP then TrapUp(0) else TRAP;
      Slide(Line(TRAP, dir, 0)) == Line(b, dir, 0)
  {
    hide Slide;
    if dir == UP {
      ShiftedLine(7, 3, 7);
    } else if dir == LEFT {
      ShiftedLine(4, 5, 6);
    } else if dir == RIGHT {
      ShiftedLine(6, 5, 4);
    } else {
      ShiftedLine(7, 3, 7);
    }
  }

  lemma TrapOtherLine(dir: int, l: int)
    requires IsDir(dir) && 1 <= l < 4
    ensures var b := if dir == LEFT then TrapLeft(0) else if dir == UP then TrapUp(0) else TRAP;
      Slide(Line(TRAP, dir, l)) == Line(b, dir, l)
  {
    hide Slide;
    FullLine(Line(TRAP, dir, l));
  }

  lemma TrapMoves(dir: int)
    requires IsDir(dir)
    ensures IsBoard(TRAP)
    ensures Slid(TRAP, dir) == if dir == LEFT then TrapLeft(0) else if dir == UP then TrapUp(0) else TRAP
  {
    hide Slide, Slid, Line, TrapLeft, TrapUp;
    TrapPlain();
    var b := if dir == LEFT then TrapLeft(0) else if dir == UP then TrapUp(0) else TRAP;
    forall l | 0 <= l < 4
      ensures Line(Slid(TRAP, dir), dir, l) == Line(b, dir, l)
    {
      SlidLine(TRAP, dir, l);
      if l == 0 {
        TrapFirstLine(dir);
      } else {
        TrapOtherLine(dir, l);
      }
    }
    SameLinesSameBoard(Slid(TRAP, dir), b, dir);
  }

  lemma StuckWhen(b: seq<int>)
    requires |b| == 16 && forall p :: 0 <= p < 16 ==> b[p] > 0
    requires forall p :: 0 <= p < 16 && p % 4 != 3 ==> b[p] != b[p + 1]
    requires forall p :: 0 <= p < 12 ==> b[p] != b[p + 4]
    ensures Stuck(b)
  {
    forall p, dir | IsPos(p) && IsDir(dir) && Neighbour(p, dir) != -1
      ensures b[Neighbour(p, dir)] != b[p]
    {
      var n := Neighbour(p, dir);
      assert dir == LEFT ==> n % 4 != 3 && p == n + 1;
      assert dir == UP ==> p == n + 4;
    }
  }

  lemma TrapLeftStuck(v: int)
    requires v == 1 || v == 2
    ensures Stuck(TrapLeft(v)) && !IsWin(TrapLeft(v))
  {
    hide TrapLeft;
    var b := TrapLeft(v);
    forall p | 0 <= p < 16
      ensures 0 < b[p] < 11 && (p % 4 != 3 ==> b[p] != b[p + 1]) && (p < 12 ==> b[p] != b[p + 4])
    {
      TrapLeftAt(v, p);
      if p % 4 != 3 {
        TrapLeftAt(v, p + 1);
      }
      if p < 12 {
        TrapLeftAt(v, p + 4);
      }
    }
    StuckWhen(b);
  }

  lemma TrapLeftAt(v: int, p: int)
    requires 0 <= p < 16
    ensures TrapLeft(v)[p] == if p < 3 then Pattern(p + 1) else if p == 3 then v else Pattern(p)
  {
  }

  lemma TrapUpStuck(v: int)
    requires v == 1 || v == 2
    ensures Stuck(TrapUp(v)) && !IsWin(TrapUp(v))
  {
    hide TrapUp;
    var b := TrapUp(v);
    forall p | 0 <= p < 16
      ensures 0 < b[p] < 11 && (p % 4 != 3 ==> b[p] != b[p + 1]) && (p < 12 ==> b[p] != b[p + 4])
    {
      TrapUpAt(v, p);
      if p % 4 != 3 {
        TrapUpAt(v, p + 1);
      }
      if p < 12 {
        TrapUpAt(v, p + 4);
      }
    }
    StuckWhen(b);
  }

  lemma TrapUpAt(v: int, p: int)
    requires 0 <= p < 16
    ensures TrapUp(v)[p] == if p % 4 != 0 then Pattern(p) else if p < 12 then Pattern(p + 4) else v
  {
  }

  lemma RefillLeft(v: int)
    ensures TrapLeft(0)[3 := v] == TrapLeft(v)
  {
    hide TrapLeft, Pattern;
    forall q | 0 <= q < 16
      ensures TrapLeft(0)[3 := v][q] == TrapLeft(v)[q]
    {
      TrapLeftAt(0, q);
      TrapLeftAt(v, q);
    }
  }

  lemma RefillUp(v: int)
    ensures TrapUp(0)[12 := v] == TrapUp(v)
  {
    hide TrapUp, Pattern;
    forall q | 0 <= q < 16
      ensures TrapUp(0)[12 := v][q] == TrapUp(v)[q]
    {
      TrapUpAt(0, q);
      TrapUpAt(v, q);
    }
  }

  lemma TrapReplies(left: bool, p: Placement)
    requires Open(if left then TrapLeft(0) else TrapUp(0), p)
    ensures var b := if left then TrapLeft(0) else TrapUp(0);
      Stuck(b[p.pos := p.val]) && !IsWin(b[p.pos := p.val])
  {
    hide Stuck, IsWin;
    if left {
      TrapLeftAt(0, p.pos);
    } else {
      TrapUpAt(0, p.pos);
    }
    assert p.pos == if left then 3 else 12;
    if left {
      TrapLeftStuck(p.val);
      RefillLeft(p.val);
    } else {
      TrapUpStuck(p.val);
      RefillUp(p.val);
    }
  }

  /**
   Two moves are possible and both reach the best value there is, yet no move
   beats a window that starts at -INF: a value of Dead never does.
   */
  lemma LegalMovesButNoBest(eval: seq<int> -> real)
    ensures IsBoard(TRAP) && CanMove(TRAP, UP) && CanMove(TRAP, LEFT)
    ensures Value(eval, TRAP, 2, true) == Dead
    ensures AfterMove(eval, TRAP, 2, UP) == Dead && AfterMove(eval, TRAP, 2, LEFT) == Dead
  {
    hide Stuck, IsWin, Value, CanMove;
    TrapPlain();
    forall dir | dir == UP || dir == LEFT
      ensures CanMove(TRAP, dir) && AfterMove(eval, TRAP, 2, dir) == Dead
    {
      TrapAfter(eval, dir);
    }
    TrapStays(RIGHT);
    TrapStays(DOWN);
    PlayerValue(eval, TRAP, 2);
  }

  lemma TrapPlain()
    ensures IsBoard(TRAP) && !IsWin(TRAP)
  {
  }

  lemma TrapEmpty(left: bool)
    ensures var b := if left then TrapLeft(0) else TrapUp(0);
      b != TRAP && IsBoard(b) && HasEmpty(b) && !IsWin(b)
  {
    var b := if left then TrapLeft(0) else TrapUp(0);
    assert b[0] != TRAP[0];
    assert b[if left then 3 else 12] == 0;
  }

  lemma TrapStays(dir: int)
    requires dir == RIGHT || dir == DOWN
    ensures IsBoard(TRAP) && !CanMove(TRAP, dir)
  {
    hide Slid;
    TrapMoves(dir);
  }

  lemma TrapAfter(eval: seq<int> -> real, dir: int)
    requires dir == UP || dir == LEFT
    ensures IsBoard(TRAP) && CanMove(TRAP, dir)
    ensures AfterMove(eval, TRAP, 2, dir) == Dead
  {
    hide Stuck, Slid, Value, Pattern;
    TrapMoves(dir);
    var b := if dir == LEFT then TrapLeft(0) else TrapUp(0);
    TrapEmpty(dir == LEFT);
    forall p: Placement | Open(b, p)
      ensures Stuck(b[p.pos := p.val]) && !IsWin(b[p.pos := p.val])
    {
      TrapReplies(dir == LEFT, p);
    }
    RepliesThatEnd(eval, b, 1);
  }

  /** With four directions looked at, the value of a player's board. */
  lemma PlayerValue(eval: seq<int> -> real, b: seq<int>, depth: int)
    requires IsBoard(b) && depth > 0 && !IsWin(b)
    ensures Value(eval, b, depth, true) == BestOf(eval, b, depth, 4)
    ensures BestOf(eval, b, depth, 4) == Dead <==>
      forall d :: IsDir(d) && CanMove(b, d) ==> AfterMove(eval, b, depth, d) == Dead
  {
    hide AfterMove, CanMove, IsWin;
    DeadBelow(eval, b, depth, 4);
  }

  /** The best is Dead exactly when every legal move is. */
  lemma {:induction false} DeadBelow(eval: seq<int> -> real, b: seq<int>, depth: int, n: int)
    requires IsBoard(b) && depth > 0 && 0 <= n <= 4
    ensures BestOf(eval, b, depth, n) == Dead <==>
      forall d :: 0 <= d < n && CanMove(b, d) ==> AfterMove(eval, b, depth, d) == Dead
  {
    hide AfterMove, CanMove;
    if n > 0 {
      DeadBelow(eval, b, depth, n - 1);
    }
  }
}
