/**
 Retransmission timers in the mode both sessions use (nodelay 1): no deadline
 is ever slept through, and no time-out grows out of range on a live link.
 */
module Timers {
  import opened SerialArith
  import opened Sender
  import opened Engine

  predicate TimerConfig(cfg: Config) {
    && cfg.nodelay == 1 && cfg.minRto == 30 && cfg.deadLink == 20
    && 10 <= cfg.interval <= 5000
  }

  predicate RttOk(cfg: Config, t: Rtt) {
    cfg.minRto <= t.rto <= RTO_MAX
  }

  /** Whatever round trip is measured, even one that overflows, rx_rto stays in range. */
  lemma UpdateAckInRange(cfg: Config, t: Rtt, sample: int)
    requires cfg.minRto <= RTO_MAX
    ensures RttOk(cfg, UpdateAck(cfg, t, sample))
  {
    hide I32, U32, TruncDiv;
  }

  /** The longest time-out of a segment sent n times: 60000 ms, half as much again each time. */
  function RtoCap(n: nat): nat {
    if n <= 1 then RTO_MAX else RtoCap(n - 1) + RtoCap(n - 1) / 2
  }

  lemma RtoCapGrows(n: nat, m: nat)
    requires n <= m
    ensures RTO_MAX <= RtoCap(n) <= RtoCap(m)
    decreases m
  {
    if n < m && m > 1 {
      RtoCapGrows(n, m - 1);
    } else if n == m && n > 1 {
      RtoCapGrows(n - 1, m - 1);
    }
  }

  /** Twenty transmissions stay well below half the range. */
  lemma RtoCapSmall()
    ensures RtoCap(20) < 0x1000_0000
  {
    assert RtoCap(5) == 303750;
    assert RtoCap(9) == 1537732;
    assert RtoCap(13) == 7784767;
    assert RtoCap(17) == 39410380;
    assert RtoCap(20) < 0x1000_0000;
  }

  /** A segment in flight: its deadline is ahead of now, by at most its time-out. */
  predicate Scheduled(now: int, seg: SndSeg) {
    && 1 <= seg.xmit <= 20
    && 30 <= seg.rto <= RtoCap(seg.xmit)
    && 1 <= TimeDiff(seg.resendts, now) <= seg.rto
  }

  ghost predicate AllScheduled(now: int, buf: seq<SndSeg>) {
    forall i :: 0 <= i < |buf| ==> Scheduled(now, buf[i])
  }

  /** While the link is alive no segment has used up its transmissions. */
  ghost predicate TimersOk(cfg: Config, k: Kcb) {
    && RttOk(cfg, k.rtt)
    && AllScheduled(k.current, k.snd.buf)
    && (!k.dead ==> forall i :: 0 <= i < |k.snd.buf| ==> k.snd.buf[i].xmit < cfg.deadLink)
  }

  lemma Ahead(now: int, d: int)
    requires 0 <= d < 0x8000_0000
    ensures TimeDiff(U32(now + d), now) == d
  {
    WrapDiff(now + d, now);
  }

  /** A deadline that has not passed is still ahead, and nearer than before. */
  lemma NotYetDue(resendts: int, last: int, now: int, rto: int)
    requires 1 <= TimeDiff(resendts, last) <= rto < 0x8000_0000
    requires TimeDiff(now, last) >= 0 && TimeDiff(now, resendts) < 0
    ensures 1 <= TimeDiff(resendts, now) <= rto
  {
    DiffShift(Ring32, now, resendts, last);
    DiffShift(Ring32, resendts, now, last);
  }

  /** One turn of the loop leaves a segment scheduled; fresh is one that has just been numbered. */
  lemma SweepSchedules(cfg: Config, last: int, now: int, rxRto: int, seg: SndSeg)
    requires TimerConfig(cfg) && 30 <= rxRto <= RTO_MAX && TimeDiff(now, last) >= 0
    requires seg.xmit == 0 || (Scheduled(last, seg) && seg.xmit < 20)
    ensures Scheduled(now, Sweep(cfg, now, rxRto, seg))
    ensures !KindOf(cfg, now, seg).Quiet? ==> Sweep(cfg, now, rxRto, seg).xmit == seg.xmit + 1 == U32(seg.xmit + 1)
    ensures KindOf(cfg, now, seg).Quiet? ==> Sweep(cfg, now, rxRto, seg) == seg && seg.xmit > 0
  {
    hide I32, RtoCap;
    RtoCapSmall();
    RtoCapGrows(1, 20);
    RtoCapGrows(seg.xmit, 20);
    if seg.xmit > 0 {
      RtoCapGrows(seg.xmit, seg.xmit + 1);
    }
    match KindOf(cfg, now, seg)
    case Quiet => NotYetDue(seg.resendts, last, now, seg.rto);
    case First =>
      OneIsCapped();
      Ahead(now, rxRto);
    case Timeout =>
      BackOffCapped(cfg, rxRto, seg.rto, seg.xmit);
      RtoCapGrows(seg.xmit + 1, 20);
      Ahead(now, BackOff(cfg, rxRto, seg.rto));
    case Fast => Ahead(now, seg.rto);
  }

  lemma OneIsCapped()
    ensures RtoCap(1) == RTO_MAX
  {
  }

  lemma BackOffCapped(cfg: Config, rxRto: int, rto: int, n: int)
    requires TimerConfig(cfg) && 1 <= n < 20 && 30 <= rto <= RtoCap(n) < 0x1000_0000
    ensures BackOff(cfg, rxRto, rto) == rto + rto / 2 <= RtoCap(n + 1)
  {
    hide RtoCap;
    CapStep(n);
    SmallBackOff(rto);
  }

  lemma CapStep(n: nat)
    requires n >= 1
    ensures RtoCap(n + 1) == RtoCap(n) + RtoCap(n) / 2
  {
  }

  lemma SmallBackOff(rto: int)
    requires 0 <= rto < 0x1000_0000
    ensures I32(rto) == rto && U32(rto + TruncDiv(rto, 2)) == rto + rto / 2
  {
  }

  lemma {:induction false} DeadlineIsLeast(now: int, buf: seq<SndSeg>, wait: int)
    requires AllScheduled(now, buf) && wait >= 1
    ensures var w := NextDeadline(now, buf, wait);
      1 <= w <= wait && forall i :: 0 <= i < |buf| ==> w <= TimeDiff(buf[i].resendts, now)
    decreases |buf|
  {
    hide I32;
    if buf != [] {
      var d := TimeDiff(buf[0].resendts, now);
      assert Scheduled(now, buf[0]);
      DeadlineIsLeast(now, buf[1..], if 0 < d < wait then d else wait);
      var w := NextDeadline(now, buf, wait);
      forall i | 0 <= i < |buf|
        ensures w <= TimeDiff(buf[i].resendts, now)
      {
        if i > 0 {
          assert buf[i] == buf[1..][i - 1];
        }
      }
    }
  }

  /** Numbered fragments start untransmitted; the rest of snd_buf is what it was. */
  lemma FilledTimers(r: Ring, cfg: Config, k: Kcb, current: int)
    requires Norm(r, k.snd.nxt) == k.snd.nxt
    ensures var buf := Filled(r, cfg, k, current).buf;
      |k.snd.buf| <= |buf| && forall i :: 0 <= i < |buf| ==>
        if i < |k.snd.buf| then buf[i] == k.snd.buf[i] else buf[i].xmit == 0
  {
    hide SendWindow, Fill, Norm;
    var cwnd := SendWindow(cfg, k);
    FillIsFifo(r, k.snd, cwnd, current, k.rtt.rto);
    var m := MoveCount(r, k.snd, cwnd);
    var buf := Filled(r, cfg, k, current).buf;
    forall i | |k.snd.buf| <= i < |buf|
      ensures buf[i].xmit == 0
    {
      NumberAllAt(r, k.snd.nxt, k.snd.que[..m], current, k.rtt.rto, i - |k.snd.buf|);
    }
  }

  /**
   No oversleep: on a live link with a clock that does not run back, after
   ikcp_flush every deadline is strictly ahead, and the returned wait is at
   least 1, at most the interval, and reaches no deadline late. Timers stay in
   range until the link is declared dead.
   */
  lemma FlushNeverOversleeps(r: Ring, cfg: Config, k: Kcb, current: u32)
    requires TimerConfig(cfg) && TimersOk(cfg, k) && !k.dead && Norm(r, k.snd.nxt) == k.snd.nxt
    requires TimeDiff(current, k.current) >= 0
    ensures var f := Flush(r, cfg, k, current);
      && TimersOk(cfg, f.k)
      && 1 <= f.wait <= cfg.interval
      && forall i :: 0 <= i < |f.k.snd.buf| ==>
           f.wait <= TimeDiff(f.k.snd.buf[i].resendts, current) && f.k.snd.buf[i].rto <= RtoCap(f.k.snd.buf[i].xmit)
  {
    hide Filled, I32, RtoCap, KindOf, BackOff, AckWires, ProbeWires, PushWires, NextProbe, AfterLoss, SendWindow, Norm, CountKind;
    var s := Filled(r, cfg, k, current);
    var buf := SweepAll(cfg, current, k.rtt.rto, s.buf);
    FilledTimers(r, cfg, k, current);
    forall i | 0 <= i < |buf|
      ensures Scheduled(current, buf[i])
      ensures buf[i].xmit >= cfg.deadLink ==> Exhausted(cfg, current, s.buf[i])
    {
      if i < |k.snd.buf| {
        assert Scheduled(k.current, k.snd.buf[i]);
      }
      SweepSchedules(cfg, k.current, current, k.rtt.rto, s.buf[i]);
    }
    DeadlineIsLeast(current, buf, cfg.interval);
  }
}
