/**
 How many replies tie: the program's arrays of twenty candidates suffice
 exactly for the boards that hold a tile.
 */
module FewCandidates {
  import opened Grid
  import opened SlideSteps
  import opened Lands
  import opened Minimax
  import opened Placing

  // ---------------------------------------------------------------------
  // Counting candidates by cell
  // ---------------------------------------------------------------------

  /** The cells among the first n in which a tile u reaches a score. */
  ghost function Winners(b: seq<int>, u: int, score: int, n: int): set<int>
    requires |b| == 16 && 0 <= n <= 16
  {
    set p | 0 <= p < n && b[p] == 0 && Score(b, Placement(p, u)) == score
  }

  lemma {:induction false} KeepAppend(b: seq<int>, ps: seq<Placement>, qs: seq<Placement>, score: int)
    requires AllOpen(b, ps) && AllOpen(b, qs)
    ensures AllOpen(b, ps + qs) && Keep(b, ps + qs, score) == Keep(b, ps, score) + Keep(b, qs, score)
    decreases |qs|
  {
    hide Score;
    if qs == [] {
      assert ps + qs == ps;
    } else {
      var n := |qs| - 1;
      KeepAppend(b, ps, qs[..n], score);
      assert (ps + qs)[..|ps + qs| - 1] == ps + qs[..n];
      assert Open(b, qs[n]);
    }
  }

  lemma AllWithAppend(ps: seq<int>, p: int, u: int)
    ensures AllWith(ps + [p], u) == AllWith(ps, u) + [Placement(p, u)]
    ensures AllWith([], u) == []
  {
  }

  lemma KeepLast(b: seq<int>, ps: seq<int>, p: int, u: int, score: int)
    requires AllOpen(b, AllWith(ps, u)) && Open(b, Placement(p, u))
    ensures AllOpen(b, AllWith(ps + [p], u))
    ensures |Keep(b, AllWith(ps + [p], u), score)|
      == |Keep(b, AllWith(ps, u), score)| + if Score(b, Placement(p, u)) == score then 1 else 0
  {
    hide Score;
    AllWithAppend(ps, p, u);
    var last := [Placement(p, u)];
    KeepAppend(b, AllWith(ps, u), last, score);
    assert last[..0] == [];
  }

  lemma WinnersLast(b: seq<int>, u: int, score: int, n: int)
    requires |b| == 16 && 0 < n <= 16
    ensures |Winners(b, u, score, n)| == |Winners(b, u, score, n - 1)|
      + if b[n - 1] == 0 && Score(b, Placement(n - 1, u)) == score then 1 else 0
  {
    hide Score;
    if b[n - 1] == 0 && Score(b, Placement(n - 1, u)) == score {
      assert Winners(b, u, score, n) == Winners(b, u, score, n - 1) + {n - 1};
    } else {
      assert Winners(b, u, score, n) == Winners(b, u, score, n - 1);
    }
  }

  lemma {:induction false} KeepCounts(b: seq<int>, u: int, score: int, n: int)
    requires |b| == 16 && 0 <= n <= 16 && (u == 1 || u == 2)
    ensures AllOpen(b, AllWith(EmptyBelow(b, n), u))
    ensures |Keep(b, AllWith(EmptyBelow(b, n), u), score)| == |Winners(b, u, score, n)|
  {
    hide Score, AllWith;
    if n == 0 {
      AllWithAppend([], 0, u);
      assert Winners(b, u, score, 0) == {};
    } else {
      KeepCounts(b, u, score, n - 1);
      WinnersLast(b, u, score, n);
      if b[n - 1] == 0 {
        KeepLast(b, EmptyBelow(b, n - 1), n - 1, u, score);
      } else {
        assert EmptyBelow(b, n) == EmptyBelow(b, n - 1);
      }
    }
  }

  /** The score the candidates share. */
  ghost predicate IsTop(b: seq<int>, score: int)
    requires |b| == 16
  {
    forall q: Placement :: Open(b, q) ==> Score(b, q) <= score
  }

  lemma CandidatesByCell(b: seq<int>) returns (score: int)
    requires |b| == 16 && HasEmpty(b)
    ensures IsTop(b, score)
    ensures |Candidates(b)| == |Winners(b, 1, score, 16)| + |Winners(b, 2, score, 16)|
  {
    hide Score, EmptyBelow, AllWith, Keep;
    var ps := Placements(b);
    if ps == [] {
      NoneOpen(b);
    }
    score := TopScore(b, ps);
    TopScoreIsTop(b, ps);
    forall q: Placement | Open(b, q)
      ensures Score(b, q) <= score
    {
      OpenIsListed(b, q);
    }
    KeepCounts(b, 1, score, 16);
    KeepCounts(b, 2, score, 16);
    KeepAppend(b, AllWith(EmptyBelow(b, 16), 1), AllWith(EmptyBelow(b, 16), 2), score);
  }

  // ---------------------------------------------------------------------
  // Rows and columns as sets of cells
  // ---------------------------------------------------------------------

  function RowCells(r: int): set<int> {
    set q | 0 <= q < 16 && q / 4 == r
  }

  function ColumnCells(c: int): set<int> {
    set q | 0 <= q < 16 && q % 4 == c
  }

  lemma LineCard(i: int)
    requires 0 <= i < 4
    ensures |RowCells(i)| == 4 && |ColumnCells(i)| == 4
  {
    assert RowCells(i) == {4 * i, 4 * i + 1, 4 * i + 2, 4 * i + 3};
    assert ColumnCells(i) == {i, i + 4, i + 8, i + 12};
  }

  lemma CrossCard(p: int)
    requires IsPos(p)
    ensures |Cross(p)| == 7 && p in Cross(p)
  {
    LineCard(p / 4);
    LineCard(p % 4);
    assert Cross(p) == RowCells(p / 4) + ColumnCells(p % 4);
    assert RowCells(p / 4) * ColumnCells(p % 4) == {p};
  }

  /** The other cells two cells are both in line with. */
  function Meet(x: int, y: int): set<int>
    requires IsPos(x) && IsPos(y)
  {
    Cross(x) * Cross(y) - {x, y}
  }

  lemma PairOut(s: set<int>, x: int, y: int)
    requires |s| == 4 && x in s && y in s && x != y
    ensures |s - {x, y}| == 2
  {
    assert s - {x, y} == s - {x} - {y};
  }

  lemma MeetInRow(x: int, y: int)
    requires IsPos(x) && IsPos(y) && x != y && x / 4 == y / 4
    ensures Cross(x) * Cross(y) == RowCells(x / 4)
  {
  }

  lemma MeetInColumn(x: int, y: int)
    requires IsPos(x) && IsPos(y) && x != y && x % 4 == y % 4
    ensures Cross(x) * Cross(y) == ColumnCells(x % 4)
  {
  }

  lemma MeetApart(x: int, y: int)
    requires IsPos(x) && IsPos(y) && x / 4 != y / 4 && x % 4 != y % 4
    ensures Meet(x, y) == {x / 4 * 4 + y % 4, y / 4 * 4 + x % 4}
  {
  }

  /** Two cells meet in two. */
  lemma MeetCard(x: int, y: int)
    requires IsPos(x) && IsPos(y) && x != y
    ensures |Meet(x, y)| == 2
  {
    hide Cross;
    LineCard(x / 4);
    LineCard(x % 4);
    if x / 4 == y / 4 {
      MeetInRow(x, y);
      PairOut(RowCells(x / 4), x, y);
    } else if x % 4 == y % 4 {
      MeetInColumn(x, y);
      PairOut(ColumnCells(x % 4), x, y);
    } else {
      MeetApart(x, y);
    }
  }

  /** The cells in line with either of two, without the two themselves where they are not in line. */
  function Around(x: int, y: int): set<int>
    requires IsPos(x) && IsPos(y)
  {
    (Cross(x) - {x}) + (Cross(y) - {y})
  }

  lemma AroundCard(x: int, y: int)
    requires IsPos(x) && IsPos(y) && x != y
    ensures |Around(x, y)| == 10
  {
    hide Cross;
    CrossCard(x);
    CrossCard(y);
    MeetCard(x, y);
    var u, w := Cross(x) - {x}, Cross(y) - {y};
    WithoutOne(Cross(x), x);
    WithoutOne(Cross(y), y);
    assert u * w == Meet(x, y);
  }

  lemma CrossIsMutual(x: int, y: int)
    requires IsPos(x) && IsPos(y)
    ensures x in Cross(y) <==> y in Cross(x)
  {
  }

  lemma SeenFromMeet(x: int, y: int, m: int, c: int)
    requires IsPos(x) && IsPos(y) && x !in Cross(y) && m in Meet(x, y) && IsPos(m) && c in Cross(m) && c != x && c != y
    ensures c in Around(x, y)
  {
  }

  lemma AnyOf<T>(s: set<T>) returns (x: T)
    requires s != {}
    ensures x in s
  {
    x :| x in s;
  }

  ghost predicate Positions(s: set<int>) {
    forall x :: x in s ==> IsPos(x)
  }

  ghost predicate Sees(q: int, xs: set<int>, ys: set<int>)
    requires Positions(xs) && Positions(ys)
  {
    exists x, y :: x in xs && y in ys && q in Meet(x, y)
  }

  /** The cells that see both a cell of some and one of others. */
  ghost function Seeing(xs: set<int>, ys: set<int>): set<int>
    requires Positions(xs) && Positions(ys)
  {
    set q | 0 <= q < 16 && Sees(q, xs, ys)
  }

  lemma {:induction false} SeeingOne(x: int, ys: set<int>)
    requires IsPos(x) && Positions(ys) && x !in ys
    ensures |Seeing({x}, ys)| <= 2 * |ys|
    decreases |ys|
  {
    hide Meet;
    if ys == {} {
      assert Seeing({x}, ys) == {};
    } else {
      var y := AnyOf(ys);
      SeeingOne(x, ys - {y});
      MeetCard(x, y);
      SubsetCard(Seeing({x}, ys), Seeing({x}, ys - {y}) + Meet(x, y));
    }
  }

  lemma {:induction false} SeeingCard(xs: set<int>, ys: set<int>)
    requires Positions(xs) && Positions(ys) && xs !! ys
    ensures |Seeing(xs, ys)| <= 2 * |xs| * |ys|
    decreases |xs|
  {
    hide Meet;
    if xs == {} {
      assert Seeing(xs, ys) == {};
    } else {
      var x := AnyOf(xs);
      SeeingCard(xs - {x}, ys);
      SeeingOne(x, ys);
      SubsetCard(Seeing(xs, ys), Seeing(xs - {x}, ys) + Seeing({x}, ys));
      assert 2 * |xs| * |ys| == 2 * |xs - {x}| * |ys| + 2 * |ys|;
    }
  }

  /** Two cells and at least one other: of the ten cells in line with the two, one does not see both kinds. */
  lemma SeeingTwo(x: int, y: int, ys: set<int>, v: set<int>)
    requires IsPos(x) && IsPos(y) && x != y && Positions(ys) && x !in ys && y !in ys
    requires v <= Cross(x) + Cross(y) && v !! ys + {x, y}
    requires forall q :: q in v ==> IsPos(q) && exists c :: c in ys && c in Cross(q)
    ensures |v| <= 9
  {
    hide Cross;
    AroundCard(x, y);
    MeetCard(x, y);
    CrossCard(x);
    CrossIsMutual(x, y);
    var out: int;
    if x in Cross(y) {
      out := x;
    } else {
      out := AnyOf(Meet(x, y));
      if out in v {
        var m := out;
        out :| out in ys && out in Cross(m);
        SeenFromMeet(x, y, m, out);
      }
    }
    WithoutOne(Around(x, y), out);
    SubsetCard(v, Around(x, y) - {out});
  }

  // ---------------------------------------------------------------------
  // Cells that see both kinds of tile
  // ---------------------------------------------------------------------

  ghost function Empties(b: seq<int>): set<int>
    requires |b| == 16
  {
    set p | 0 <= p < 16 && b[p] == 0
  }

  ghost function Ones(b: seq<int>): set<int>
    requires |b| == 16
  {
    set p | 0 <= p < 16 && b[p] == 1
  }

  ghost function Mores(b: seq<int>): set<int>
    requires |b| == 16
  {
    set p | 0 <= p < 16 && b[p] > 1
  }

  function Upto(n: nat): (s: set<int>)
    ensures forall p :: p in s <==> 0 <= p < n
  {
    if n == 0 then {} else Upto(n - 1) + {n - 1}
  }

  lemma {:induction false} UptoCard(n: nat)
    ensures |Upto(n)| == n
  {
    if n > 0 {
      UptoCard(n - 1);
    }
  }

  lemma KindsPartition(b: seq<int>)
    requires IsBoard(b)
    ensures Ones(b) !! Mores(b) && Empties(b) !! Ones(b) + Mores(b)
    ensures |Empties(b)| + |Ones(b)| + |Mores(b)| == 16
  {
    hide Upto;
    UptoCard(16);
    assert Upto(16) == Empties(b) + (Ones(b) + Mores(b));
  }

  lemma SightIsMeeting(b: seq<int>, p: int)
    requires |b| == 16 && IsPos(p) && b[p] == 0 && SeesOne(b, p) && SeesMore(b, p)
    ensures Sees(p, Ones(b), Mores(b))
    ensures exists q :: q in Ones(b) && q in Cross(p)
    ensures exists q :: q in Mores(b) && q in Cross(p)
    ensures forall x, y :: IsPos(x) && IsPos(y) && (Ones(b) == {x, y} || Mores(b) == {x, y}) ==> p in Cross(x) + Cross(y)
  {
    var q :| q in Cross(p) && b[q] == 1;
    var r :| r in Cross(p) && b[r] > 1;
    assert q in Ones(b) && r in Mores(b);
    CrossIsMutual(q, p);
    CrossIsMutual(r, p);
    assert p in Meet(q, r);
  }

  lemma TwoOf<T>(s: set<T>) returns (x: T, y: T)
    requires |s| == 2
    ensures x != y && s == {x, y}
  {
    x :| x in s;
    WithoutOne(s, x);
    y :| y in s - {x};
    WithoutOne(s - {x}, y);
    assert s - {x} - {y} == {};
  }

  lemma TwoAndThree(xs: set<int>, ys: set<int>, v: set<int>)
    requires Positions(xs) && Positions(ys) && xs !! ys && v !! xs + ys
    requires |xs| == 2
    requires forall q :: q in v ==> IsPos(q) && exists c :: c in ys && c in Cross(q)
    requires forall x, y :: IsPos(x) && IsPos(y) && xs == {x, y} ==> v <= Cross(x) + Cross(y)
    ensures |v| <= 9
  {
    hide Cross;
    var x, y := TwoOf(xs);
    SeeingTwo(x, y, ys, v);
  }

  /** On a board of at most five tiles, few cells see both kinds. */
  lemma FewSeeBoth(b: seq<int>, v: set<int>)
    requires IsBoard(b) && 1 <= |Ones(b)| + |Mores(b)| <= 5
    requires v <= Empties(b) && forall p :: p in v ==> IsPos(p) && SeesOne(b, p) && SeesMore(b, p)
    ensures |v| <= 4 + |Ones(b)| + |Mores(b)|
  {
    hide Cross, SeesOne, SeesMore;
    var xs, ys := Ones(b), Mores(b);
    KindsPartition(b);
    forall p | p in v
      ensures p in Seeing(xs, ys)
      ensures exists q :: q in Ones(b) && q in Cross(p)
      ensures exists q :: q in Mores(b) && q in Cross(p)
    {
      SightIsMeeting(b, p);
    }
    SubsetCard(v, Seeing(xs, ys));
    SeeingCard(xs, ys);
    forall x, y | IsPos(x) && IsPos(y) && (xs == {x, y} || ys == {x, y})
      ensures v <= Cross(x) + Cross(y)
    {
      forall p | p in v
        ensures p in Cross(x) + Cross(y)
      {
        SightIsMeeting(b, p);
      }
    }
    if |xs| == 2 && |ys| == 3 {
      TwoAndThree(xs, ys, v);
    } else if |xs| == 3 && |ys| == 2 {
      TwoAndThree(ys, xs, v);
    } else {
      SmallProducts(|xs|, |ys|);
    }
  }

  lemma SmallProducts(m: nat, n: nat)
    requires 1 <= m + n <= 5 && !(m == 2 && n == 3) && !(m == 3 && n == 2)
    ensures 2 * m * n <= 4 + m + n
  {
    if m == 0 || n == 0 {
    } else if m == 1 {
    } else if n == 1 {
    } else {
      assert m == 2 && n == 2;
    }
  }

  // ---------------------------------------------------------------------
  // A cell with nothing in line among the best
  // ---------------------------------------------------------------------

  /** A cell in line with p, on p's row or column. */
  lemma OnLine(b: seq<int>, p: int, q: int)
    requires |b| == 16 && IsPos(p) && IsPos(q)
    ensures q / 4 == p / 4 ==> RowOf(b, p)[3 - q % 4] == b[q]
    ensures q % 4 == p % 4 ==> ColumnOf(b, p)[3 - q / 4] == b[q]
  {
    hide Line;
    if q / 4 == p / 4 {
      LineAt(b, RIGHT, p / 4, 3 - q % 4);
    }
    if q % 4 == p % 4 {
      LineAt(b, DOWN, p % 4, 3 - q / 4);
    }
  }

  lemma IsolatedSees(b: seq<int>, p: int)
    requires |b| == 16 && IsPos(p) && Isolated(b, p)
    ensures forall q :: q in Cross(p) ==> b[q] == 0
  {
    hide RowOf, ColumnOf;
    forall q | q in Cross(p)
      ensures b[q] == 0
    {
      OnLine(b, p, q);
    }
  }

  /** A one there scores one more than the board itself. */
  lemma IsolatedScore(b: seq<int>, p: int)
    requires IsBoard(b) && IsPos(p) && b[p] == 0 && Isolated(b, p)
    ensures Score(b, Placement(p, 1)) == Before(b) + 1
  {
    hide Score, Before, RowOf, ColumnOf, Cross, Joins, Rise;
    IsolatedSees(b, p);
    LineKinds(b, p);
    ScoreIs(b, Placement(p, 1));
    RiseByKind(RowOf(b, p), 3 - p % 4);
    RiseByKind(ColumnOf(b, p), 3 - p / 4);
  }

  lemma JoinsBeside(b: seq<int>, p: int, u: int)
    requires |b| == 16 && IsPos(p) && Joins(b, p, u)
    ensures Beside(RowOf(b, p), 3 - p % 4, u) || Beside(ColumnOf(b, p), 3 - p / 4, u)
  {
    hide RowOf, ColumnOf;
    var dir :| 0 <= dir < 4 && Neighbour(p, dir) != -1 && b[Neighbour(p, dir)] == u;
    OnLine(b, p, Neighbour(p, dir));
  }

  lemma BareBeside(s: seq<int>, k: nat, u: int)
    requires |s| == 4 && k < 4 && Bare(s) && u != 0
    ensures !Beside(s, k, u)
  {
  }

  /** Where no placement gains more, a cell with one bare line has a bare or a straddling other one. */
  lemma StraddlesBareRow(b: seq<int>, p: int)
    requires IsBoard(b) && IsPos(p) && b[p] == 0 && IsTop(b, Before(b) + 1)
    ensures Bare(RowOf(b, p)) && !Bare(ColumnOf(b, p)) ==> Straddles(ColumnOf(b, p), 3 - p / 4)
    ensures Bare(ColumnOf(b, p)) && !Bare(RowOf(b, p)) ==> Straddles(RowOf(b, p), 3 - p % 4)
  {
    hide Score, Before, RowOf, ColumnOf, Cross, Joins, Rise, Beside, Bare, NonNegative, Straddles;
    var row, column := RowOf(b, p), ColumnOf(b, p);
    var i, j := 3 - p % 4, 3 - p / 4;
    LineKinds(b, p);
    forall u | u == 1 || u == 2
      ensures Uneven(b, p, u) <= 0 || Beside(row, i, u) || Beside(column, j, u)
      ensures Bare(row) ==> !Beside(row, i, u)
      ensures Bare(column) ==> !Beside(column, j, u)
    {
      ScoreIs(b, Placement(p, u));
      assert Open(b, Placement(p, u));
      if Joins(b, p, u) {
        JoinsBeside(b, p, u);
      }
      if Bare(row) { BareBeside(row, i, u); }
      if Bare(column) { BareBeside(column, j, u); }
    }
    RiseByKind(row, i);
    RiseByKind(column, j);
    if Bare(row) && !Bare(column) {
      SmoothForBoth(column, j);
    }
    if Bare(column) && !Bare(row) {
      SmoothForBoth(row, i);
    }
  }

  lemma LineStraddles(b: seq<int>, r: int, c: int)
    requires IsBoard(b) && 0 <= r < 4 && 0 <= c < 4 && IsTop(b, Before(b) + 1)
    ensures Bare(Line(b, RIGHT, r)) && !Bare(Line(b, DOWN, c)) ==> Straddles(Line(b, DOWN, c), 3 - r)
    ensures Bare(Line(b, DOWN, c)) && !Bare(Line(b, RIGHT, r)) ==> Straddles(Line(b, RIGHT, r), 3 - c)
  {
    hide Before, Line, Straddles, IsTop;
    var p := 4 * r + c;
    OnLine(b, p, p);
    if Bare(Line(b, RIGHT, r)) || Bare(Line(b, DOWN, c)) {
      StraddlesBareRow(b, p);
    }
  }

  lemma StraddlesInside(s: seq<int>, k: nat)
    requires |s| == 4 && Straddles(s, k)
    ensures 0 < k < 3 && !Bare(s)
  {
  }

  ghost function Tiles(b: seq<int>): set<int>
    requires |b| == 16
  {
    set p | 0 <= p < 16 && b[p] != 0
  }

  lemma TilesAre(b: seq<int>)
    requires IsBoard(b)
    ensures |Tiles(b)| == |Ones(b)| + |Mores(b)| == 16 - |Empties(b)|
  {
    KindsPartition(b);
    assert Tiles(b) == Ones(b) + Mores(b);
  }

  lemma TwoIn<T>(s: set<T>, x: T, y: T)
    requires x in s && y in s && x != y
    ensures |s| >= 2
  {
    SubsetCard({x, y}, s);
  }

  lemma TwoOnRow(b: seq<int>, r: int, k: nat)
    requires |b| == 16 && 0 <= r < 4 && Straddles(Line(b, RIGHT, r), k)
    ensures |Tiles(b) * RowCells(r)| >= 2
  {
    hide Line;
    var s := Line(b, RIGHT, r);
    var i :| 0 <= i < k < 4 && s[i] != 0;
    var j :| k < j < 4 && s[j] != 0;
    LineAt(b, RIGHT, r, i);
    LineAt(b, RIGHT, r, j);
    TwoIn(Tiles(b) * RowCells(r), 4 * r + 3 - i, 4 * r + 3 - j);
  }

  lemma TwoOnColumn(b: seq<int>, c: int, k: nat)
    requires |b| == 16 && 0 <= c < 4 && Straddles(Line(b, DOWN, c), k)
    ensures |Tiles(b) * ColumnCells(c)| >= 2
  {
    hide Line;
    var s := Line(b, DOWN, c);
    var i :| 0 <= i < k < 4 && s[i] != 0;
    var j :| k < j < 4 && s[j] != 0;
    LineAt(b, DOWN, c, i);
    LineAt(b, DOWN, c, j);
    TwoIn(Tiles(b) * ColumnCells(c), 4 * (3 - i) + c, 4 * (3 - j) + c);
  }

  lemma ThreeParts<T>(s: set<T>, x: set<T>, y: set<T>, z: set<T>)
    requires x !! y && y !! z && x !! z
    ensures |s| >= |s * x| + |s * y| + |s * z|
  {
    assert |s * x + s * y| == |s * x| + |s * y|;
    assert |(s * x + s * y) + s * z| == |s * x + s * y| + |s * z|;
    SubsetCard((s * x + s * y) + s * z, s);
  }

  /** Such a cell is in the middle, and the outer rows and columns hold tiles. */
  lemma OuterLines(b: seq<int>, p: int, t: int)
    requires IsBoard(b) && IsPos(p) && Isolated(b, p) && IsTop(b, Before(b) + 1)
    requires IsPos(t) && b[t] != 0
    ensures 1 <= p / 4 <= 2 && 1 <= p % 4 <= 2
    ensures !Bare(Line(b, RIGHT, 0)) && !Bare(Line(b, RIGHT, 3)) && !Bare(Line(b, DOWN, 0)) && !Bare(Line(b, DOWN, 3))
  {
    hide Before, Line, Straddles, IsTop;
    OnLine(b, t, t);
    var row, column := Line(b, RIGHT, t / 4), Line(b, DOWN, t % 4);
    forall r | 0 <= r < 4 && Bare(Line(b, RIGHT, r))
      ensures 1 <= r <= 2
    {
      LineStraddles(b, r, t % 4);
      StraddlesInside(column, 3 - r);
    }
    forall c | 0 <= c < 4 && Bare(Line(b, DOWN, c))
      ensures 1 <= c <= 2
    {
      LineStraddles(b, t / 4, c);
      StraddlesInside(row, 3 - c);
    }
  }

  /** With at most five tiles the inner lines are bare. */
  lemma InnerLines(b: seq<int>, p: int, t: int)
    requires IsBoard(b) && IsPos(p) && Isolated(b, p) && IsTop(b, Before(b) + 1)
    requires IsPos(t) && b[t] != 0 && |Tiles(b)| <= 5
    ensures Bare(Line(b, RIGHT, 1)) && Bare(Line(b, RIGHT, 2)) && Bare(Line(b, DOWN, 1)) && Bare(Line(b, DOWN, 2))
  {
    hide Before, Line, Straddles, IsTop, Bare, Tiles;
    OuterLines(b, p, t);
    var r, c := 3 - p / 4, 3 - p % 4;
    if !Bare(Line(b, RIGHT, r)) {
      forall i | i == 0 || i == 3 || i == r
        ensures |Tiles(b) * RowCells(i)| >= 2
      {
        LineStraddles(b, i, p % 4);
        TwoOnRow(b, i, 3 - p % 4);
      }
      ThreeParts(Tiles(b), RowCells(0), RowCells(3), RowCells(r));
    }
    if !Bare(Line(b, DOWN, c)) {
      forall i | i == 0 || i == 3 || i == c
        ensures |Tiles(b) * ColumnCells(i)| >= 2
      {
        LineStraddles(b, p / 4, i);
        TwoOnColumn(b, i, 3 - p / 4);
      }
      ThreeParts(Tiles(b), ColumnCells(0), ColumnCells(3), ColumnCells(c));
    }
  }

  /** Four tiles in the corners, ones and others in turn. */
  predicate Corners(b: seq<int>) {
    && |b| == 16
    && (forall p :: 0 <= p < 16 ==> (b[p] != 0 <==> p == 0 || p == 3 || p == 12 || p == 15))
    && (b[0] == 1 <==> b[3] != 1) && (b[0] == 1 <==> b[12] != 1) && (b[0] == 1 <==> b[15] == 1)
  }

  lemma EdgeKinds(s: seq<int>, k: nat)
    requires |s| == 4 && Straddles(s, k) && s[1] == 0 && s[2] == 0
    ensures s[0] != 0 && s[3] != 0 && (s[0] == 1 <==> s[3] != 1)
  {
  }

  lemma InnerIsBare(b: seq<int>)
    requires |b| == 16
    requires Bare(Line(b, RIGHT, 1)) && Bare(Line(b, RIGHT, 2)) && Bare(Line(b, DOWN, 1)) && Bare(Line(b, DOWN, 2))
    ensures forall p :: 0 <= p < 16 && p != 0 && p != 3 && p != 12 && p != 15 ==> b[p] == 0
  {
    hide Line;
    forall p | 0 <= p < 16 && p != 0 && p != 3 && p != 12 && p != 15
      ensures b[p] == 0
    {
      OnLine(b, p, p);
    }
  }

  lemma IsolatedCorners(b: seq<int>, p: int, t: int)
    requires IsBoard(b) && IsPos(p) && Isolated(b, p) && IsTop(b, Before(b) + 1)
    requires IsPos(t) && b[t] != 0 && |Tiles(b)| <= 5
    ensures Corners(b)
  {
    hide Before, Straddles, IsTop, Bare, Tiles, Line, LinePos;
    OuterLines(b, p, t);
    InnerLines(b, p, t);
    InnerIsBare(b);
    LineStraddles(b, 0, p % 4);
    LineStraddles(b, 3, p % 4);
    LineStraddles(b, p / 4, 0);
    LineStraddles(b, p / 4, 3);
    EdgeOf(b);
    EdgeKinds(Line(b, RIGHT, 0), 3 - p % 4);
    EdgeKinds(Line(b, RIGHT, 3), 3 - p % 4);
    EdgeKinds(Line(b, DOWN, 0), 3 - p / 4);
  }

  lemma EdgeOf(b: seq<int>)
    requires |b| == 16
    ensures Line(b, RIGHT, 0) == [b[3], b[2], b[1], b[0]]
    ensures Line(b, RIGHT, 3) == [b[15], b[14], b[13], b[12]]
    ensures Line(b, DOWN, 0) == [b[12], b[8], b[4], b[0]]
    ensures Line(b, DOWN, 3) == [b[15], b[11], b[7], b[3]]
  {
  }

  /** Another one next to a corner's one gains nothing. */
  lemma CornerLoses(b: seq<int>, p: int)
    requires IsBoard(b) && Corners(b) && IsPos(p)
    requires if b[0] == 1 then p == 1 || p == 4 || p == 11 || p == 14 else p == 2 || p == 7 || p == 8 || p == 13
    ensures Score(b, Placement(p, 1)) <= Before(b)
  {
    hide Score, Before, Line, Cross, Neighbour, Rise;
    EdgeOf(b);
    EdgeNeighbours(p);
    LineKinds(b, p);
    CrossLines(b, p);
    ScoreIs(b, Placement(p, 1));
    RiseByKind(RowOf(b, p), 3 - p % 4);
    RiseByKind(ColumnOf(b, p), 3 - p / 4);
    if p / 4 == 0 || p / 4 == 3 {
      BesideOne(RowOf(b, p), 3 - p % 4);
    } else {
      BesideOne(ColumnOf(b, p), 3 - p / 4);
    }
  }

  /** The inner lines of such a board. */
  lemma CrossLines(b: seq<int>, p: int)
    requires Corners(b) && IsPos(p)
    ensures p / 4 == 1 || p / 4 == 2 ==> Bare(RowOf(b, p))
    ensures p % 4 == 1 || p % 4 == 2 ==> Bare(ColumnOf(b, p))
  {
  }

  lemma EdgeNeighbours(p: int)
    requires IsPos(p)
    ensures p == 1 || p == 13 ==> Neighbour(p, LEFT) == p - 1
    ensures p == 2 || p == 14 ==> Neighbour(p, RIGHT) == p + 1
    ensures p == 4 || p == 7 ==> Neighbour(p, UP) == p - 4
    ensures p == 8 || p == 11 ==> Neighbour(p, DOWN) == p + 4
  {
  }

  lemma CornerTiles(b: seq<int>)
    requires IsBoard(b) && Corners(b)
    ensures |Tiles(b)| == 4 && |Empties(b)| == 12
  {
    TilesAre(b);
    assert Tiles(b) == {0, 3, 12, 15};
  }

  lemma CornerTies(b: seq<int>, score: int)
    requires IsBoard(b) && Corners(b) && score > Before(b)
    ensures |Winners(b, 1, score, 16) * Winners(b, 2, score, 16)| <= 8
  {
    hide Score, Before;
    CornerTiles(b);
    var out := if b[0] == 1 then {1, 4, 11, 14} else {2, 7, 8, 13};
    forall p | p in out
      ensures p in Empties(b) && p !in Winners(b, 1, score, 16)
    {
      CornerLoses(b, p);
    }
    SubsetCard(Winners(b, 1, score, 16) * Winners(b, 2, score, 16), Empties(b) - out);
  }

  /** Few cells are best for both tiles. */
  lemma FewTies(b: seq<int>, score: int, t: int)
    requires IsBoard(b) && IsPos(t) && b[t] != 0 && |Tiles(b)| <= 5 && IsTop(b, score)
    ensures |Winners(b, 1, score, 16) * Winners(b, 2, score, 16)| <= 4 + |Tiles(b)|
  {
    hide Score, Before, Isolated, SeesOne, SeesMore, Corners, IsTop;
    var ties := Winners(b, 1, score, 16) * Winners(b, 2, score, 16);
    TilesAre(b);
    assert t in Tiles(b);
    if p :| p in ties && Isolated(b, p) {
      IsolatedScore(b, p);
      IsolatedCorners(b, p, t);
      CornerTies(b, score);
      CornerTiles(b);
    } else {
      forall p | p in ties
        ensures SeesOne(b, p) && SeesMore(b, p)
      {
        TieSeesBoth(b, p);
      }
      FewSeeBoth(b, ties);
    }
  }

  lemma SumOfSets<T>(a: set<T>, b: set<T>)
    ensures |a| + |b| == |a + b| + |a * b|
  {
  }

  /** The arrays of twenty candidates suffice exactly for the boards that hold a tile. */
  lemma TwentySuffice(b: seq<int>)
    requires IsBoard(b)
    ensures |Candidates(b)| <= 20 <==> HasTile(b)
  {
    hide Score, IsTop, Candidates, EmptyBelow;
    if t :| 0 <= t < 16 && b[t] != 0 {
      CandidatesSpec(b);
      if HasEmpty(b) {
        var score := CandidatesByCell(b);
        var w1, w2 := Winners(b, 1, score, 16), Winners(b, 2, score, 16);
        TilesAre(b);
        SubsetCard(w1 + w2, Empties(b));
        SubsetCard(w1 * w2, Empties(b));
        SumOfSets(w1, w2);
        if |Tiles(b)| <= 5 {
          FewTies(b, score, t);
        }
      }
    } else {
      EmptyBoardTies(b);
    }
  }
}
