/**
 Congestion control: the window counted in segments and the window counted in
 bytes stay within one segment of each other, and no step overflows.
 */
module Congestion {
  import opened SerialArith
  import opened Engine

  /** The largest congestion window any step can set. */
  function Ceiling(cfg: Config): int {
    65536 + cfg.fastResend
  }

  /**
   Segments of more than half the size incr starts from, and not so large that
   the byte count of the largest window leaves 31 bits. Both parameter sets of
   the program are of this kind.
   */
  predicate CongConfig(cfg: Config) {
    && 688 < cfg.mss && 0 <= cfg.fastResend
    && (Ceiling(cfg) + 2) * cfg.mss < 0x8000_0000
  }

  /** incr lies strictly within one segment of cwnd segments. */
  predicate Tracks(mss: int, c: Cong) {
    (c.cwnd - 1) * mss < c.incr < (c.cwnd + 1) * mss
  }

  predicate CongOk(cfg: Config, c: Cong) {
    && 1 <= c.cwnd <= Ceiling(cfg)
    && 2 <= c.ssthresh
    && Tracks(cfg.mss, c)
  }

  lemma Product(a: int, b: int, m: int)
    requires 0 <= m && a <= b
    ensures a * m <= b * m
  {
  }

  lemma Distribute(c: int, d: int, m: int)
    ensures (c + d) * m == c * m + d * m
  {
  }

  lemma SmallProducts(cfg: Config, c: int)
    requires CongConfig(cfg) && 0 <= c <= Ceiling(cfg) + 2
    ensures 0 <= c * cfg.mss < 0x8000_0000
    ensures (c - 1) * cfg.mss == c * cfg.mss - cfg.mss
    ensures (c + 1) * cfg.mss == c * cfg.mss + cfg.mss
    ensures (c + 2) * cfg.mss == c * cfg.mss + 2 * cfg.mss
  {
    Distribute(c, -1, cfg.mss);
    Distribute(c, 1, cfg.mss);
    Distribute(c, 2, cfg.mss);
    Product(c, Ceiling(cfg) + 2, cfg.mss);
    Product(0, c, cfg.mss);
  }

  /**
   The state right after configuration satisfies the relation exactly when the
   head room is less than 688 bytes: ikcp_setmtu and ikcp_set_head_room do not
   rescale incr, which keeps the value 1376 it got on creation.
   */
  lemma InitialExactly(cfg: Config)
    requires 0 < cfg.mss && cfg.fastResend >= 0
    ensures CongOk(cfg, Fresh(cfg).cong) <==> cfg.mss > 688
  {
  }

  lemma Less(a: int, b: int, m: int)
    requires m > 0 && a * m < b * m
    ensures a < b
  {
    if a >= b {
      Product(b, a, m);
    }
  }

  /** The byte increment of congestion avoidance is less than one segment. */
  lemma IncrementSmall(m: int, incr: int)
    requires 0 < m < incr
    ensures 0 <= m * m / incr < m
  {
    var a := m * m / incr;
    assert a * incr + m * m % incr == m * m;
    assert m * m < m * incr;
    Less(a, m, incr);
  }

  /** Once incr is close to the next step, the increment is at most 15/16 of a segment. */
  lemma IncrementSmaller(m: int, incr: int)
    requires 0 < m && 16 * m <= 15 * incr
    ensures 16 * (m * m / incr) <= 15 * m
  {
    var a := m * m / incr;
    assert a * incr + m * m % incr == m * m;
    Product(16 * m, 15 * incr, m);
    assert 16 * a * incr == 16 * (a * incr) && (15 * m + 1) * incr == 15 * incr * m + incr;
    Less(16 * a, 15 * m + 1, incr);
  }

  lemma CeilDiv(x: int, m: int)
    requires m > 0 && x > 0
    ensures var q := (x + m - 1) / m; q >= 1 && (q - 1) * m < x <= q * m
  {
    var q := (x + m - 1) / m;
    var t := (x + m - 1) % m;
    assert x + m - 1 == q * m + t;
    Distribute(q, -1, m);
    if q <= 0 {
      Product(q, 0, m);
    }
  }

  /** Rounding the byte window up to segments, when it has reached the next segment. */
  lemma RoundUp(m: int, cwnd: int, incr: int)
    requires m > 0 && cwnd >= 1 && (cwnd + 1) * m <= incr < (cwnd + 2) * m
    ensures var q := (incr + m - 1) / m;
      cwnd < q <= cwnd + 2 && (q - 1) * m < incr < (q + 1) * m
  {
    Product(1, cwnd + 1, m);
    CeilDiv(incr, m);
    var q := (incr + m - 1) / m;
    Distribute(cwnd, 1, m);
    Less(cwnd, q, m);
    Less(q - 1, cwnd + 2, m);
    Distribute(q, 1, m);
  }

  lemma SmallSegment(cfg: Config)
    requires CongConfig(cfg)
    ensures cfg.mss < 0x8000
  {
    if cfg.mss >= 0x8000 {
      Product(65538, Ceiling(cfg) + 2, cfg.mss);
      Product(0x8000, cfg.mss, 65538);
    }
  }

  lemma AvoidBytesBounds(cfg: Config, c: Cong)
    requires CongConfig(cfg) && CongOk(cfg, c) && 2 <= c.cwnd <= 65535
    ensures var m, incr := cfg.mss, AvoidBytes(cfg.mss, c.incr);
      && m < c.incr < incr < 0x8000_0000 && m < 0x8000
      && (c.cwnd - 1) * m < incr < (c.cwnd + 2) * m
      && 0 <= (c.cwnd + 1) * m < 0x8000_0000
  {
    hide U32;
    var m := cfg.mss;
    SmallProducts(cfg, c.cwnd);
    SmallProducts(cfg, 65538);
    Product(2, c.cwnd, m);
    Product(c.cwnd + 2, 65538, m);
    SmallSegment(cfg);
    Product(m, 0x8000, m);
    IncrementSmall(m, c.incr);
    var incr := c.incr + m * m / c.incr + m / 16;
    if incr >= (c.cwnd + 1) * m {
      Product(3, c.cwnd + 1, m);
      IncrementSmaller(m, c.incr);
    }
    InRange(m * m);
    InRange(incr);
  }

  lemma InRange(x: int)
    requires 0 <= x < 0x1_0000_0000
    ensures U32(x) == x
  {
  }

  /** The window follows its byte count to the next segment. */
  lemma AvoidSegsFollows(m: int, cwnd: int, incr: int)
    requires 0 < m < 0x8000 && cwnd >= 1 && (cwnd - 1) * m < incr < (cwnd + 2) * m
    requires 0 <= (cwnd + 1) * m < 0x8000_0000 && incr < 0x8000_0000
    ensures var w := AvoidSegs(m, cwnd, incr);
      cwnd <= w <= cwnd + 2 && (w - 1) * m < incr < (w + 1) * m
  {
    hide U32;
    var next := (cwnd + 1) * m;
    InRange(next);
    if next <= incr {
      InRange(incr + m - 1);
      RoundUp(m, cwnd, incr);
    }
  }

  lemma AvoidanceKeeps(cfg: Config, c: Cong)
    requires CongConfig(cfg) && CongOk(cfg, c) && 2 <= c.cwnd <= 65535
    ensures var g := Avoidance(cfg.mss, c);
      c.cwnd <= g.cwnd <= c.cwnd + 2 && g.ssthresh == c.ssthresh && Tracks(cfg.mss, g)
  {
    hide AvoidBytes, AvoidSegs;
    AvoidBytesBounds(cfg, c);
    hide CongConfig, CongOk;
    AvoidSegsFollows(cfg.mss, c.cwnd, AvoidBytes(cfg.mss, c.incr));
  }

  lemma SlowStartKeeps(cfg: Config, c: Cong)
    requires CongConfig(cfg) && CongOk(cfg, c) && c.cwnd <= 65535
    ensures var g := SlowStart(cfg.mss, c);
      g.cwnd == c.cwnd + 1 && g.ssthresh == c.ssthresh && Tracks(cfg.mss, g)
  {
    hide U32;
    SmallProducts(cfg, c.cwnd);
    InRange(c.cwnd + 1);
    InRange(c.incr + cfg.mss);
  }

  lemma CapKeeps(cfg: Config, ssthresh: int, rmtWnd: int)
    requires CongConfig(cfg) && 1 <= rmtWnd <= 65535 && ssthresh >= 2
    ensures CongOk(cfg, Cong(rmtWnd, U32(rmtWnd * cfg.mss), ssthresh))
  {
    hide U32;
    SmallProducts(cfg, rmtWnd);
    InRange(rmtWnd * cfg.mss);
  }

  /**
   Growing on an acknowledgement keeps the relation, adds at most two
   segments, and never goes past the peer's window.
   */
  lemma GrowKeeps(cfg: Config, c: Cong, rmtWnd: int)
    requires CongConfig(cfg) && CongOk(cfg, c) && 0 <= rmtWnd <= 65535
    ensures var g := Grow(cfg.mss, c, rmtWnd);
      && CongOk(cfg, g)
      && g.cwnd <= c.cwnd + 2
      && (g.cwnd <= c.cwnd || g.cwnd <= rmtWnd)
  {
    hide SlowStart, Avoidance, Tracks, U32;
    if c.cwnd < rmtWnd {
      if c.cwnd < c.ssthresh {
        SlowStartKeeps(cfg, c);
      } else {
        AvoidanceKeeps(cfg, c);
      }
      CapKeeps(cfg, c.ssthresh, rmtWnd);
    }
  }

  /** Without fast retransmission its threshold is the largest number, and adding that is subtracting one. */
  lemma WrappedThreshold(thresh: int)
    requires 1 <= thresh <= 65535
    ensures U32(thresh + 0xffff_ffff) == thresh - 1
  {
  }

  /** Halving and restarting after loss keeps the relation. */
  lemma AfterLossKeeps(cfg: Config, c: Cong, inflight: int, window: int, fast: bool, lost: bool)
    requires CongConfig(cfg) && CongOk(cfg, c) && 0 <= inflight <= 65535 && 0 <= window <= 65535
    ensures CongOk(cfg, AfterLoss(cfg, c, inflight, window, fast, lost))
  {
    hide U32;
    var thresh := Max(inflight / 2, THRESH_MIN);
    var cwnd := if cfg.fastResend > 0 then thresh + cfg.fastResend else thresh - 1;
    WrappedThreshold(thresh);
    SmallProducts(cfg, cwnd);
    InRange(cwnd);
    InRange(cwnd * cfg.mss);
  }
}
