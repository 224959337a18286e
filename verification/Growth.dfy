/**
 The congestion window opens: how far one acknowledgement takes it, and that
 acknowledgements take it all the way to the peer's window.
 */
module Growth {
  import opened SerialArith
  import opened Receiver
  import opened Sender
  import opened Codec
  import opened Engine
  import opened EngineInvariant
  import opened Congestion
  import opened Endpoint
  import opened Arrivals

  /**
   Below the threshold the window opens by a segment; above it the byte count
   grows by a sixteenth of a segment and at most a segment more, and the window
   opens when that reaches the next one. Neither goes past the peer's window.
   */
  lemma GrowOpens(cfg: Config, c: Cong, rmtWnd: int)
    requires CongConfig(cfg) && CongOk(cfg, c) && c.cwnd < rmtWnd <= 65535
    ensures var g := Grow(cfg.mss, c, rmtWnd);
      && g.ssthresh == c.ssthresh && c.cwnd <= g.cwnd <= rmtWnd
      && (c.cwnd < c.ssthresh ==> g.cwnd == c.cwnd + 1 && g.incr == c.incr + cfg.mss)
      && (c.cwnd >= c.ssthresh && g.cwnd < rmtWnd ==>
            && cfg.mss / 16 <= g.incr - c.incr < cfg.mss / 16 + cfg.mss
            && (g.cwnd > c.cwnd <==> g.incr >= (c.cwnd + 1) * cfg.mss))
  {
    hide Tracks, U32;
    if c.cwnd < c.ssthresh {
      SmallProducts(cfg, c.cwnd);
      Slow(cfg, c);
    } else {
      AvoidBytesBounds(cfg, c);
      AvoidanceKeeps(cfg, c);
      Avoided(cfg, c);
    }
  }

  lemma Slow(cfg: Config, c: Cong)
    requires CongConfig(cfg) && CongOk(cfg, c) && c.cwnd <= 65535
    ensures SlowStart(cfg.mss, c) == c.(cwnd := c.cwnd + 1, incr := c.incr + cfg.mss)
  {
    hide U32;
    SmallProducts(cfg, c.cwnd);
    InRange(c.cwnd + 1);
    InRange(c.incr + cfg.mss);
  }

  lemma Avoided(cfg: Config, c: Cong)
    requires CongConfig(cfg) && CongOk(cfg, c) && 2 <= c.cwnd <= 65535
    ensures var g := Avoidance(cfg.mss, c);
      && cfg.mss / 16 <= g.incr - c.incr < cfg.mss / 16 + cfg.mss
      && (g.cwnd > c.cwnd <==> g.incr >= (c.cwnd + 1) * cfg.mss)
  {
    hide U32, AvoidSegs;
    var m := cfg.mss;
    AvoidBytesBounds(cfg, c);
    Added(cfg, c);
    SegsOpen(m, c.cwnd, AvoidBytes(m, c.incr));
  }

  lemma Added(cfg: Config, c: Cong)
    requires CongConfig(cfg) && CongOk(cfg, c) && 2 <= c.cwnd <= 65535
    ensures cfg.mss < c.incr && cfg.mss / 16 <= AvoidBytes(cfg.mss, c.incr) - c.incr < cfg.mss / 16 + cfg.mss
  {
    hide U32;
    var m := cfg.mss;
    SmallProducts(cfg, c.cwnd);
    SmallProducts(cfg, 65538);
    Product(2, c.cwnd, m);
    Product(c.cwnd + 2, 65538, m);
    SmallSegment(cfg);
    Product(m, 0x8000, m);
    IncrementSmall(m, c.incr);
    InRange(m * m);
    InRange(c.incr + m * m / c.incr + m / 16);
  }

  lemma SegsOpen(m: int, cwnd: int, incr: int)
    requires 0 < m < 0x8000 && cwnd >= 1 && (cwnd - 1) * m < incr < (cwnd + 2) * m
    requires 0 <= (cwnd + 1) * m < 0x8000_0000 && incr < 0x8000_0000
    ensures AvoidSegs(m, cwnd, incr) > cwnd <==> incr >= (cwnd + 1) * m
  {
    hide U32;
    var next := (cwnd + 1) * m;
    InRange(next);
    if next <= incr {
      InRange(incr + m - 1);
      RoundUp(m, cwnd, incr);
    }
  }

  // ---------------------------------------------------------------------
  // All the way
  // ---------------------------------------------------------------------

  /** The window after n inputs that acknowledge something new, with the peer's window as it is. */
  function Grown(mss: int, c: Cong, rmtWnd: int, n: nat): Cong
    requires mss > 0
  {
    if n == 0 then c else Grow(mss, Grown(mss, c, rmtWnd, n - 1), rmtWnd)
  }

  lemma {:induction false} Climbs(cfg: Config, c: Cong, rmtWnd: int, n: nat)
    requires CongConfig(cfg) && CongOk(cfg, c) && 1 <= rmtWnd <= 65535
    ensures var g := Grown(cfg.mss, c, rmtWnd, n);
      && CongOk(cfg, g) && g.cwnd <= Max(c.cwnd, rmtWnd)
      && (g.cwnd >= rmtWnd || g.incr >= c.incr + n * (cfg.mss / 16))
    decreases n
  {
    hide Grow, CongOk;
    if n > 0 {
      Climbs(cfg, c, rmtWnd, n - 1);
      var g := Grown(cfg.mss, c, rmtWnd, n - 1);
      GrowKeeps(cfg, g, rmtWnd);
      if g.cwnd < rmtWnd {
        GrowOpens(cfg, g, rmtWnd);
      } else {
        FullStays(cfg.mss, g, rmtWnd);
      }
    }
  }

  lemma FullStays(mss: int, c: Cong, rmtWnd: int)
    requires mss > 0 && c.cwnd >= rmtWnd
    ensures Grow(mss, c, rmtWnd) == c
  {
  }

  /** Seventeen acknowledgements for each segment of the peer's window are enough to open ours as far, and it stays there. */
  lemma ReachesPeer(cfg: Config, c: Cong, rmtWnd: int, n: nat)
    requires CongConfig(cfg) && CongOk(cfg, c) && c.cwnd <= rmtWnd && 1 <= rmtWnd <= 65535 && n >= 17 * rmtWnd
    ensures Grown(cfg.mss, c, rmtWnd, n).cwnd == rmtWnd
  {
    hide Grow;
    var m, g := cfg.mss, Grown(cfg.mss, c, rmtWnd, n);
    Climbs(cfg, c, rmtWnd, n);
    if g.cwnd < rmtWnd {
      Product(g.cwnd + 1, rmtWnd, m);
      Product(17 * rmtWnd, n, m / 16);
      Product(m, 17 * (m / 16), rmtWnd);
      assert 17 * (m / 16) * rmtWnd == 17 * rmtWnd * (m / 16);
      Product(0, c.cwnd - 1, m);
    }
  }

  // ---------------------------------------------------------------------
  // On input
  // ---------------------------------------------------------------------

  lemma {:induction false} ReadingKeepsCong(cfg: Config, k: Kcb, m: MaxAck, ws: seq<Wire>)
    ensures InputSegs(Ring32, cfg, k, m, ws).0.cong == k.cong
    decreases |ws|
  {
    hide InputSeg, NextMax;
    if ws != [] {
      SegKeepsCong(cfg, k, ws[0]);
      ReadingKeepsCong(cfg, InputSeg(Ring32, cfg, k, ws[0]), NextMax(Ring32, m, ws[0]), ws[1..]);
    }
  }

  lemma EndGrows(cfg: Config, k: Kcb, m: MaxAck, prevUna: int)
    requires cfg.mss > 0
    ensures var k' := EndInput(Ring32, cfg, k, m, prevUna);
      && k'.snd.una == k.snd.una && k'.rmtWnd == k.rmtWnd
      && k'.cong == if Diff(Ring32, k'.snd.una, prevUna) > 0 then Grow(cfg.mss, k.cong, k.rmtWnd) else k.cong
  {
    hide Grow, Skip, Diff;
  }

  /**
   On any bytes: the window opens exactly when the datagram is whole and has
   moved snd_una forward, towards the window it announced.
   */
  lemma InputGrowsExactly(cfg: Config, k: Kcb, b: seq<byte>)
    requires cfg.mss > 0
    ensures var k' := InputBytes(cfg, k, b).k;
      k'.cong ==
        if ReadFrom(cfg.conv, b).1 && Diff(Ring32, k'.snd.una, k.snd.una) > 0
        then Grow(cfg.mss, k.cong, LastWnd(ReadFrom(cfg.conv, b).0, k.rmtWnd))
        else k.cong
  {
    hide EndInput, InputSegs, InputBytes, ReadFrom, Grow, Diff;
    InputReads(cfg, k, b);
    InputTells(cfg, k, b);
    var ws := ReadFrom(cfg.conv, b).0;
    var (k', m) := InputSegs(Ring32, cfg, k, NoAck, ws);
    ReadingKeepsCong(cfg, k, NoAck, ws);
    EndGrows(cfg, k', m, k.snd.una);
  }
}
