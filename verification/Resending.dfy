/**
 Which segments a flush sends again and why: a deadline that has passed, or
 enough acknowledgements that skipped the segment; and what the congestion
 window makes of it.
 */
module Resending {
  import opened SerialArith
  import opened Receiver
  import opened Sender
  import opened Codec
  import opened Engine
  import opened EngineInvariant
  import opened Endpoint
  import opened ByteRuns
  import opened Arrivals
  import opened Timers
  import Congestion
  import opened Connection

  // ---------------------------------------------------------------------
  // What one flush sends
  // ---------------------------------------------------------------------

  /** The deadline of a segment that has been sent has passed. */
  predicate Overdue(seg: SndSeg, current: int) {
    seg.xmit > 0 && TimeDiff(current, seg.resendts) >= 0
  }

  /** The segment has been skipped often enough, and has not been sent too often to hurry. */
  predicate SkippedEnough(cfg: Config, seg: SndSeg) {
    && cfg.fastResend > 0 && seg.fastack >= cfg.fastResend
    && (cfg.fastLimit <= 0 || seg.xmit <= cfg.fastLimit)
  }

  /** Counters that have not come near their wrap. */
  predicate Countable(seg: SndSeg) {
    0 <= seg.xmit < 0x8000_0000 && 0 <= seg.fastack < 0xffff_ffff
  }

  predicate Sends(ws: seq<Wire>, sn: int) {
    exists i :: 0 <= i < |ws| && ws[i].cmd == CMD_PUSH && ws[i].sn == sn
  }

  lemma {:induction false} PushesAre(cfg: Config, k: Kcb, current: int, buf: seq<SndSeg>, sn: int)
    ensures Sends(PushWires(cfg, k, current, buf), sn)
      <==> exists i :: 0 <= i < |buf| && buf[i].sn == sn && !KindOf(cfg, current, buf[i]).Quiet?
    decreases |buf|
  {
    hide KindOf, WndUnused;
    if buf != [] {
      PushesAre(cfg, k, current, buf[1..], sn);
      var ws, rest := PushWires(cfg, k, current, buf), PushWires(cfg, k, current, buf[1..]);
      var quiet := KindOf(cfg, current, buf[0]).Quiet?;
      assert ws == if quiet then rest else [Push(cfg, k, current, buf[0])] + rest;
      if i :| 0 <= i < |buf[1..]| && buf[1..][i].sn == sn && !KindOf(cfg, current, buf[1..][i]).Quiet? {
        assert buf[i + 1] == buf[1..][i];
      }
      if i :| 0 <= i < |buf| && buf[i].sn == sn && !KindOf(cfg, current, buf[i]).Quiet? {
        assert i > 0 ==> buf[i] == buf[1..][i - 1];
        assert i == 0 ==> ws[0].sn == sn;
      }
      if i :| 0 <= i < |rest| && rest[i].cmd == CMD_PUSH && rest[i].sn == sn {
        assert ws[if quiet then i else i + 1] == rest[i];
      }
      if i :| 0 <= i < |ws| && ws[i].cmd == CMD_PUSH && ws[i].sn == sn {
        if quiet {
          assert rest[i] == ws[i];
        } else {
          assert i > 0 ==> rest[i - 1] == ws[i];
        }
      }
    }
  }

  lemma FlushedPushes(cfg: Config, k: Kcb, current: u32, sn: int)
    ensures Sends(Flush(Ring32, cfg, k, current).wires, sn)
      <==> Sends(PushWires(cfg, k, current, Filled(Ring32, cfg, k, current).buf), sn)
  {
    hide NextProbe, PushWires, Filled, SweepAll, AfterLoss, WndUnused;
    var ps := PushWires(cfg, k, current, Filled(Ring32, cfg, k, current).buf);
    var cs := AckWires(cfg, k, k.acks) + ProbeWires(cfg, k, NextProbe(k.probe, k.rmtWnd, current));
    var ws := Flush(Ring32, cfg, k, current).wires;
    assert ws == cs + ps;
    assert forall i :: 0 <= i < |cs| ==> cs[i].cmd != CMD_PUSH;
    if i :| 0 <= i < |ps| && ps[i].cmd == CMD_PUSH && ps[i].sn == sn {
      assert ws[|cs| + i] == ps[i];
    }
  }

  /** No two segments have one number. */
  lemma OneOfEach(r: Ring, wnd: int, s: Snd, i: nat, j: nat)
    requires SndInv(r, wnd, s) && i < |s.buf| && j < |s.buf| && s.buf[i].sn == s.buf[j].sn
    ensures i == j
  {
    hide Diff, Norm;
  }

  /**
   A segment in flight is sent by a flush exactly when it has never been sent,
   its deadline has passed, or it has been skipped enough.
   */
  lemma SentExactly(cfg: Config, k: Kcb, current: u32, i: nat)
    requires ConfigOk(cfg) && KcbInv(Ring32, cfg, k) && i < |k.snd.buf| && Countable(k.snd.buf[i])
    ensures var seg := k.snd.buf[i];
      Sends(Flush(Ring32, cfg, k, current).wires, seg.sn)
      <==> seg.xmit == 0 || Overdue(seg, current) || SkippedEnough(cfg, seg)
  {
    hide Flush, Filled, KcbInv, SndInv, I32, Sends, PushWires, Norm;
    var seg, s := k.snd.buf[i], Filled(Ring32, cfg, k, current);
    NxtIsNormal(cfg, k);
    FilledTimers(Ring32, cfg, k, current);
    FilledOk(Ring32, cfg, k, current);
    FlushedPushes(cfg, k, current, seg.sn);
    PushesAre(cfg, k, current, s.buf, seg.sn);
    assert s.buf[i] == seg;
    forall j | 0 <= j < |s.buf| && s.buf[j].sn == seg.sn
      ensures j == i
    {
      OneOfEach(Ring32, Window(cfg), s, j, i);
    }
    SmallCount(seg);
  }

  lemma SmallCount(seg: SndSeg)
    requires Countable(seg)
    ensures I32(seg.xmit) == seg.xmit
  {
  }

  /** Fragments that a flush has just numbered are sent by it, and are due again after the estimated time-out. */
  lemma NewIsSent(cfg: Config, k: Kcb, current: u32, i: nat)
    requires ConfigOk(cfg) && KcbInv(Ring32, cfg, k) && |k.snd.buf| <= i < |Flush(Ring32, cfg, k, current).k.snd.buf|
    requires 0 <= k.rtt.rto < 0x1000_0000
    ensures var seg := Flush(Ring32, cfg, k, current).k.snd.buf[i];
      && Sends(Flush(Ring32, cfg, k, current).wires, seg.sn) && seg.xmit == 1 && seg.rto == k.rtt.rto
      && TimeDiff(seg.resendts, current) == seg.rto + if cfg.nodelay == 0 then seg.rto / 8 else 0
  {
    hide Filled, KcbInv, I32, U32, Sends, PushWires, Norm, AckWires, ProbeWires, NextProbe, AfterLoss, CountKind, NextDeadline;
    var s := Filled(Ring32, cfg, k, current);
    NxtIsNormal(cfg, k);
    FilledTimers(Ring32, cfg, k, current);
    FlushedPushes(cfg, k, current, s.buf[i].sn);
    PushesAre(cfg, k, current, s.buf, s.buf[i].sn);
    assert KindOf(cfg, current, s.buf[i]) == First;
    Congestion.InRange(1);
    Ahead(current, k.rtt.rto);
    Ahead(current, k.rtt.rto + k.rtt.rto / 8);
  }

  // ---------------------------------------------------------------------
  // What sending does to a segment
  // ---------------------------------------------------------------------

  /** A time-out lengthens the time-out: doubled, or half of it or of the estimated one added. */
  predicate BackedOff(cfg: Config, rxRto: int, before: int, after: int) {
    if cfg.nodelay == 0 then
      && after >= 2 * before && after >= before + rxRto
      && (after == 2 * before || after == before + rxRto)
    else
      var twice := if cfg.nodelay == 1 then before else rxRto;
      2 * (after - before) <= twice <= 2 * (after - before) + 1
  }

  /** Times of less than three days. */
  predicate ModestRto(cfg: Config, rxRto: int, seg: SndSeg) {
    0 <= rxRto < 0x1000_0000 && 0 <= seg.rto < 0x1000_0000 && 0 <= cfg.nodelay
  }

  /**
   A segment after a flush: as it was unless it has been sent; once more sent,
   and due again when its time-out has passed. A first sending takes the
   estimated time-out, with an eighth to spare in the unhurried mode; a passed
   deadline backs off; a hurried one starts to count skips again.
   */
  predicate Rescheduled(cfg: Config, current: int, rxRto: int, before: SndSeg, after: SndSeg) {
    && after.sn == before.sn && after.frag == before.frag
    && (if before.xmit > 0 && !Overdue(before, current) && !SkippedEnough(cfg, before) then after == before
        else
          && after.xmit == before.xmit + 1
          && TimeDiff(after.resendts, current) ==
               after.rto + (if before.xmit == 0 && cfg.nodelay == 0 then rxRto / 8 else 0)
          && (if before.xmit == 0 then after.rto == rxRto && after.fastack == before.fastack
              else if Overdue(before, current) then
                BackedOff(cfg, rxRto, before.rto, after.rto) && after.fastack == before.fastack
              else after.rto == before.rto && after.fastack == 0))
  }

  lemma SweepReschedules(cfg: Config, current: int, rxRto: int, seg: SndSeg)
    requires Countable(seg) && ModestRto(cfg, rxRto, seg) && cfg.fastResend >= 0
    ensures Rescheduled(cfg, current, rxRto, seg, Sweep(cfg, current, rxRto, seg))
  {
    hide I32, U32;
    SmallCount(seg);
    SmallTime(seg.xmit + 1);
    SmallTime(seg.rto);
    SmallTime(seg.rto + Max(seg.rto, rxRto));
    SmallTime(seg.rto + TruncDiv(seg.rto, 2));
    SmallTime(seg.rto + TruncDiv(rxRto, 2));
    Ahead(current, rxRto);
    Ahead(current, rxRto + rxRto / 8);
    Ahead(current, seg.rto);
    var rto := if cfg.nodelay == 0 then seg.rto + Max(seg.rto, rxRto)
               else if cfg.nodelay == 1 then seg.rto + seg.rto / 2 else seg.rto + rxRto / 2;
    Ahead(current, rto);
  }

  lemma SmallTime(x: int)
    requires 0 <= x <= 0x8000_0000
    ensures U32(x) == x
    ensures x < 0x8000_0000 ==> I32(x) == x
  {
  }

  /** Every segment in flight, after a flush in any mode. */
  lemma FlushReschedules(cfg: Config, k: Kcb, current: u32, i: nat)
    requires ConfigOk(cfg) && KcbInv(Ring32, cfg, k) && i < |k.snd.buf|
    requires Countable(k.snd.buf[i]) && ModestRto(cfg, k.rtt.rto, k.snd.buf[i])
    ensures var f := Flush(Ring32, cfg, k, current).k;
      i < |f.snd.buf| && Rescheduled(cfg, current, k.rtt.rto, k.snd.buf[i], f.snd.buf[i])
  {
    hide Filled, KcbInv, I32, Norm, Rescheduled, Sweep, AckWires, ProbeWires, PushWires, NextProbe, AfterLoss, CountKind, NextDeadline;
    NxtIsNormal(cfg, k);
    FilledTimers(Ring32, cfg, k, current);
    SweepReschedules(cfg, current, k.rtt.rto, k.snd.buf[i]);
  }

  // ---------------------------------------------------------------------
  // How long to wait
  // ---------------------------------------------------------------------

  lemma {:induction false} DeadlineIsNext(current: int, buf: seq<SndSeg>, wait: int)
    ensures var w := NextDeadline(current, buf, wait);
      && w <= wait
      && (w == wait || exists i :: 0 <= i < |buf| && TimeDiff(buf[i].resendts, current) == w && w > 0)
      && forall i :: 0 <= i < |buf| && TimeDiff(buf[i].resendts, current) > 0 ==> w <= TimeDiff(buf[i].resendts, current)
    decreases |buf|
  {
    hide I32;
    if buf != [] {
      var d := TimeDiff(buf[0].resendts, current);
      DeadlineIsNext(current, buf[1..], if 0 < d < wait then d else wait);
      var w := NextDeadline(current, buf, wait);
      if i :| 0 <= i < |buf[1..]| && TimeDiff(buf[1..][i].resendts, current) == w && w > 0 {
        assert buf[i + 1] == buf[1..][i];
      }
      forall i | 0 <= i < |buf| && TimeDiff(buf[i].resendts, current) > 0
        ensures w <= TimeDiff(buf[i].resendts, current)
      {
        if i > 0 {
          assert buf[i] == buf[1..][i - 1];
        }
      }
    }
  }

  /** In any mode a flush asks to be called again at the first deadline that is ahead, or after one interval. */
  lemma WaitIsNext(cfg: Config, k: Kcb, current: u32)
    ensures var f := Flush(Ring32, cfg, k, current);
      && f.wait <= cfg.interval
      && (f.wait == cfg.interval ||
          exists i :: 0 <= i < |f.k.snd.buf| && TimeDiff(f.k.snd.buf[i].resendts, current) == f.wait && f.wait > 0)
      && forall i :: 0 <= i < |f.k.snd.buf| && TimeDiff(f.k.snd.buf[i].resendts, current) > 0 ==>
           f.wait <= TimeDiff(f.k.snd.buf[i].resendts, current)
  {
    hide I32, Filled, SweepAll, NextProbe, AfterLoss, AckWires, ProbeWires, PushWires, NextDeadline;
    DeadlineIsNext(current, SweepAll(cfg, current, k.rtt.rto, Filled(Ring32, cfg, k, current).buf), cfg.interval);
  }

  // ---------------------------------------------------------------------
  // The congestion window
  // ---------------------------------------------------------------------

  lemma {:induction false} CountsAny(cfg: Config, current: int, buf: seq<SndSeg>, kind: Kind)
    ensures CountKind(cfg, current, buf, kind) > 0 <==> exists i :: 0 <= i < |buf| && KindOf(cfg, current, buf[i]) == kind
  {
    hide KindOf;
    if buf != [] {
      CountsAny(cfg, current, buf[1..], kind);
      if i :| 0 <= i < |buf[1..]| && KindOf(cfg, current, buf[1..][i]) == kind {
        assert buf[i + 1] == buf[1..][i];
      }
      if i :| 0 <= i < |buf| && KindOf(cfg, current, buf[i]) == kind {
        assert i > 0 ==> buf[i] == buf[1..][i - 1];
      }
    }
  }

  ghost predicate AllCountable(buf: seq<SndSeg>) {
    forall i :: 0 <= i < |buf| ==> Countable(buf[i])
  }

  ghost predicate AnyOverdue(buf: seq<SndSeg>, current: int) {
    exists i :: 0 <= i < |buf| && Overdue(buf[i], current)
  }

  /** A segment that is hurried: sent before, not overdue, skipped enough. */
  ghost predicate AnyHurried(cfg: Config, buf: seq<SndSeg>, current: int) {
    exists i :: 0 <= i < |buf| && buf[i].xmit > 0 && !Overdue(buf[i], current) && SkippedEnough(cfg, buf[i])
  }

  lemma KindsAre(cfg: Config, k: Kcb, current: u32)
    requires ConfigOk(cfg) && KcbInv(Ring32, cfg, k) && AllCountable(k.snd.buf)
    ensures var buf := Filled(Ring32, cfg, k, current).buf;
      && (CountKind(cfg, current, buf, Timeout) > 0 <==> AnyOverdue(k.snd.buf, current))
      && (CountKind(cfg, current, buf, Fast) > 0 <==> AnyHurried(cfg, k.snd.buf, current))
  {
    hide Filled, KcbInv, I32, Norm, KindOf, CountKind;
    var buf, was := Filled(Ring32, cfg, k, current).buf, k.snd.buf;
    NxtIsNormal(cfg, k);
    FilledTimers(Ring32, cfg, k, current);
    CountsAny(cfg, current, buf, Timeout);
    CountsAny(cfg, current, buf, Fast);
    forall i | 0 <= i < |buf|
      ensures KindOf(cfg, current, buf[i]) == Timeout <==> i < |was| && Overdue(was[i], current)
      ensures KindOf(cfg, current, buf[i]) == Fast
        <==> i < |was| && was[i].xmit > 0 && !Overdue(was[i], current) && SkippedEnough(cfg, was[i])
    {
      KindIs(cfg, current, buf[i]);
    }
    if AnyOverdue(was, current) {
      var i :| 0 <= i < |was| && Overdue(was[i], current);
      assert KindOf(cfg, current, buf[i]) == Timeout;
    }
    if AnyHurried(cfg, was, current) {
      var i :| 0 <= i < |was| && was[i].xmit > 0 && !Overdue(was[i], current) && SkippedEnough(cfg, was[i]);
      assert KindOf(cfg, current, buf[i]) == Fast;
    }
  }

  lemma KindIs(cfg: Config, current: int, seg: SndSeg)
    requires ConfigOk(cfg) && (seg.xmit == 0 || Countable(seg))
    ensures KindOf(cfg, current, seg) == First <==> seg.xmit == 0
    ensures KindOf(cfg, current, seg) == Timeout <==> seg.xmit != 0 && TimeDiff(current, seg.resendts) >= 0
    ensures KindOf(cfg, current, seg) == Fast
      <==> seg.xmit != 0 && !(TimeDiff(current, seg.resendts) >= 0) && SkippedEnough(cfg, seg)
  {
    hide I32;
    if seg.xmit != 0 {
      SmallCount(seg);
    }
  }

  /** The smallest of the windows that a flush has to keep to. */
  function Narrowest(cfg: Config, k: Kcb): int {
    if cfg.noCwnd then Min(cfg.sndWnd, k.rmtWnd) else Min(k.cong.cwnd, Min(cfg.sndWnd, k.rmtWnd))
  }

  /**
   What a flush does to the congestion window. A passed deadline brings it down
   to one segment and the threshold to half the window; a hurried segment
   without one brings the threshold to half of what is in flight, and the
   window to that and the skips it took; and otherwise nothing changes.
   */
  lemma FlushReacts(cfg: Config, k: Kcb, current: u32)
    requires ConfigOk(cfg) && KcbInv(Ring32, cfg, k) && AllCountable(k.snd.buf)
    requires cfg.fastResend < 0x8000_0000 && k.cong.cwnd > 0
    ensures var f := Flush(Ring32, cfg, k, current).k;
      var inflight := Diff(Ring32, f.snd.nxt, f.snd.una);
      if AnyOverdue(k.snd.buf, current) then
        f.cong == Cong(1, cfg.mss, Max(Narrowest(cfg, k) / 2, 2))
      else if AnyHurried(cfg, k.snd.buf, current) then
        && f.cong.ssthresh == Max(inflight / 2, 2)
        && f.cong.cwnd == f.cong.ssthresh + cfg.fastResend
        && f.cong.incr == U32(f.cong.cwnd * cfg.mss)
      else f.cong == k.cong
  {
    hide Filled, KcbInv, I32, U32, SweepAll, AckWires, ProbeWires, PushWires, NextProbe, NextDeadline, CountKind,
      AnyOverdue, AnyHurried, AllCountable;
    var s := Filled(Ring32, cfg, k, current);
    KindsAre(cfg, k, current);
    FilledOk(Ring32, cfg, k, current);
    Inflight(cfg, s);
    var thresh := Max(Diff(Ring32, s.nxt, s.una) / 2, 2);
    Congestion.InRange(thresh + cfg.fastResend);
    if AnyHurried(cfg, k.snd.buf, current) {
      HurriedMeans(cfg, k.snd.buf, current);
    }
  }

  lemma HurriedMeans(cfg: Config, buf: seq<SndSeg>, current: int)
    requires AnyHurried(cfg, buf, current)
    ensures cfg.fastResend > 0
  {
  }

  lemma Inflight(cfg: Config, s: Snd)
    requires SndInv(Ring32, Window(cfg), s)
    ensures 0 <= Diff(Ring32, s.nxt, s.una) == Norm(Ring32, s.nxt - s.una) <= MAX_WND
  {
    hide SegsOk, Shrink;
  }

  /** How many segments have a deadline that has passed. */
  function OverdueCount(buf: seq<SndSeg>, current: int): nat {
    if buf == [] then 0
    else OverdueCount(buf[..|buf| - 1], current) + if Overdue(buf[|buf| - 1], current) then 1 else 0
  }

  lemma {:induction false} CountLast(cfg: Config, current: int, buf: seq<SndSeg>, kind: Kind)
    requires buf != []
    ensures CountKind(cfg, current, buf, kind) == CountKind(cfg, current, buf[..|buf| - 1], kind)
      + if KindOf(cfg, current, buf[|buf| - 1]) == kind then 1 else 0
    decreases |buf|
  {
    hide KindOf;
    if |buf| > 1 {
      CountLast(cfg, current, buf[1..], kind);
      assert buf[1..][..|buf| - 2] == buf[..|buf| - 1][1..];
    } else {
      assert buf[..0] == [] && buf[1..] == [];
    }
  }

  lemma {:induction false} CountsOverdue(cfg: Config, current: int, buf: seq<SndSeg>, n: nat)
    requires n <= |buf| && (forall i :: 0 <= i < n ==> buf[i].xmit >= 0) && forall i :: n <= i < |buf| ==> buf[i].xmit == 0
    ensures CountKind(cfg, current, buf, Timeout) == OverdueCount(buf[..n], current)
    decreases |buf|
  {
    hide I32;
    if buf != [] {
      var m := |buf| - 1;
      CountLast(cfg, current, buf, Timeout);
      CountsOverdue(cfg, current, buf[..m], if n > m then m else n);
      if n > m {
        assert buf[..n] == buf && buf[..m][..m] == buf[..m];
      } else {
        assert buf[..m][..n] == buf[..n];
      }
    }
  }

  /** The block counts its time-outs. */
  lemma TimeoutsAreCounted(cfg: Config, k: Kcb, current: u32)
    requires KcbInv(Ring32, cfg, k) && forall i :: 0 <= i < |k.snd.buf| ==> k.snd.buf[i].xmit >= 0
    ensures Flush(Ring32, cfg, k, current).k.xmit == U32(k.xmit + OverdueCount(k.snd.buf, current))
  {
    hide KcbInv, Filled, KindOf, SweepAll, AfterLoss, AckWires, ProbeWires, PushWires, NextProbe, NextDeadline, U32;
    var buf, n := Filled(Ring32, cfg, k, current).buf, |k.snd.buf|;
    NxtIsNormal(cfg, k);
    FilledTimers(Ring32, cfg, k, current);
    CountsOverdue(cfg, current, buf, n);
    assert buf[..n] == k.snd.buf;
  }

  // ---------------------------------------------------------------------
  // Giving up
  // ---------------------------------------------------------------------

  /** A flush declares the link dead exactly when it sends a segment for the last time allowed. */
  lemma DeadExactly(cfg: Config, k: Kcb, current: u32)
    requires ConfigOk(cfg) && KcbInv(Ring32, cfg, k)
    ensures var f := Flush(Ring32, cfg, k, current);
      f.k.dead <==> k.dead || exists i ::
        && 0 <= i < |f.k.snd.buf|
        && f.k.snd.buf[i].xmit >= cfg.deadLink && Sends(f.wires, f.k.snd.buf[i].sn)
  {
    hide Filled, KcbInv, I32, U32, AckWires, ProbeWires, PushWires, NextProbe, NextDeadline, CountKind, AfterLoss,
      Sends, SkippedEnough, KindOf;
    var s, f := Filled(Ring32, cfg, k, current), Flush(Ring32, cfg, k, current);
    NxtIsNormal(cfg, k);
    FilledTimers(Ring32, cfg, k, current);
    FilledOk(Ring32, cfg, k, current);
    forall i | 0 <= i < |s.buf|
      ensures f.k.snd.buf[i].sn == s.buf[i].sn
      ensures Sends(f.wires, s.buf[i].sn) <==> !KindOf(cfg, current, s.buf[i]).Quiet?
      ensures !KindOf(cfg, current, s.buf[i]).Quiet? ==> f.k.snd.buf[i].xmit == U32(s.buf[i].xmit + 1)
    {
      FlushedPushes(cfg, k, current, s.buf[i].sn);
      PushesAre(cfg, k, current, s.buf, s.buf[i].sn);
      SweepCounts(cfg, current, k.rtt.rto, s.buf[i]);
      forall j | 0 <= j < |s.buf| && s.buf[j].sn == s.buf[i].sn
        ensures j == i
      {
        OneOfEach(Ring32, Window(cfg), s, j, i);
      }
    }
    if i :| 0 <= i < |s.buf| && Exhausted(cfg, current, s.buf[i]) {
      assert f.k.snd.buf[i].xmit >= cfg.deadLink && Sends(f.wires, f.k.snd.buf[i].sn);
    }
  }

  lemma SweepCounts(cfg: Config, current: int, rxRto: int, seg: SndSeg)
    ensures var t := Sweep(cfg, current, rxRto, seg);
      t.sn == seg.sn && t.xmit == if KindOf(cfg, current, seg).Quiet? then seg.xmit else U32(seg.xmit + 1)
  {
    hide KindOf, BackOff, U32;
  }

  // ---------------------------------------------------------------------
  // Counting skips over calls
  // ---------------------------------------------------------------------

  /** None of the segments acknowledges the number. */
  predicate Spares(ws: seq<Wire>, sn: int) {
    forall j :: 0 <= j < |ws| ==> Diff(Ring32, ws[j].una, sn) <= 0 && (ws[j].cmd == CMD_ACK ==> ws[j].sn != sn)
  }

  /** An acknowledgement of a number before snd_nxt, on either side of the given one and not far from it. */
  predicate Credible(w: Wire, sn: int, nxt: int) {
    w.cmd == CMD_ACK ==> -0x4000_0000 <= Diff(Ring32, w.sn, sn) < 0x4000_0000 && Diff(Ring32, w.sn, nxt) < 0
  }

  predicate AllCredible(ws: seq<Wire>, sn: int, nxt: int) {
    forall j :: 0 <= j < |ws| ==> Credible(ws[j], sn, nxt)
  }

  /** Some acknowledgement among the segments is for a later number. */
  predicate SkipsOver(ws: seq<Wire>, sn: int) {
    exists j :: 0 <= j < |ws| && ws[j].cmd == CMD_ACK && Diff(Ring32, ws[j].sn, sn) > 0
  }

  /** What is known of the largest acknowledgement of an input. */
  predicate MaxIs(m: MaxAck, sn: int, nxt: int, over: bool) {
    if m.NoAck? then !over
    else
      && Norm(Ring32, m.sn) == m.sn && Credible(Wire(CMD_ACK, 0, 0, 0, m.sn, 0, []), sn, nxt)
      && (over <==> Diff(Ring32, m.sn, sn) > 0)
  }

  lemma MaxGrows(m: MaxAck, w: Wire, sn: int, nxt: int, over: bool)
    requires MaxIs(m, sn, nxt, over) && Credible(w, sn, nxt) && InRing(Ring32, w)
    ensures MaxIs(NextMax(Ring32, m, w), sn, nxt, over || (w.cmd == CMD_ACK && Diff(Ring32, w.sn, sn) > 0))
  {
    hide Diff, Norm;
    if w.cmd == CMD_ACK && m.MaxAck? {
      DiffShift(Ring32, w.sn, m.sn, sn);
    }
  }

  lemma UnaSpares(s: Snd, una: int, seg: SndSeg)
    requires seg in s.buf && Diff(Ring32, una, seg.sn) <= 0
    ensures seg in ParseUna(Ring32, s, una).buf
  {
    hide Diff;
    DropBelowIsSuffix(Ring32, s.buf, una);
    var p := CountBelow(Ring32, s.buf, una);
    var i :| 0 <= i < |s.buf| && s.buf[i] == seg;
    assert i >= p;
    assert s.buf[p..][i - p] == seg;
  }

  lemma RemoveSpares(buf: seq<SndSeg>, sn: int, seg: SndSeg)
    requires seg in buf && sn != seg.sn
    ensures seg in Remove(Ring32, buf, sn)
  {
    hide Diff;
    RemoveIsCut(Ring32, buf, sn);
    var q := IndexOf(Ring32, buf, sn);
    var i :| 0 <= i < |buf| && buf[i] == seg;
    if q < |buf| {
      assert i != q;
      assert (buf[..q] + buf[q + 1..])[if i < q then i else i - 1] == seg;
    }
  }

  /** A segment that is not acknowledged stays in snd_buf as it is. */
  lemma SegStays(s: Snd, w: Wire, seg: SndSeg)
    requires seg in s.buf && Diff(Ring32, w.una, seg.sn) <= 0 && (w.cmd == CMD_ACK ==> w.sn != seg.sn)
    ensures seg in SndAfter(Ring32, s, w).buf
  {
    hide Diff, Remove, ParseUna;
    UnaSpares(s, w.una, seg);
    if w.cmd == CMD_ACK {
      RemoveSpares(ParseUna(Ring32, s, w.una).buf, w.sn, seg);
    }
  }

  lemma {:induction false} ReadingSpares(cfg: Config, k: Kcb, m: MaxAck, ws: seq<Wire>, seg: SndSeg, over: bool)
    requires ConfigOk(cfg) && KcbInv(Ring32, cfg, k) && seg in k.snd.buf
    requires forall j :: 0 <= j < |ws| ==> InRing(Ring32, ws[j])
    requires Spares(ws, seg.sn) && AllCredible(ws, seg.sn, k.snd.nxt) && MaxIs(m, seg.sn, k.snd.nxt, over)
    ensures var (k', m') := InputSegs(Ring32, cfg, k, m, ws);
      && KcbInv(Ring32, cfg, k') && seg in k'.snd.buf && k'.snd.nxt == k.snd.nxt
      && MaxIs(m', seg.sn, k.snd.nxt, over || SkipsOver(ws, seg.sn))
    decreases |ws|
  {
    hide InputSeg, KcbInv, NextMax, InRing, Diff, MaxIs, Credible, SndAfter;
    if ws == [] {
      assert !SkipsOver(ws, seg.sn);
    } else {
      var w, rest := ws[0], ws[1..];
      InputSegKeepsInv(Ring32, cfg, k, w);
      InputSegSnd(Ring32, cfg, k, w);
      SegStays(k.snd, w, seg);
      MaxGrows(m, w, seg.sn, k.snd.nxt, over);
      var over' := over || (w.cmd == CMD_ACK && Diff(Ring32, w.sn, seg.sn) > 0);
      SkipsMore(w, rest, seg.sn);
      assert forall j :: 0 <= j < |rest| ==> rest[j] == ws[j + 1];
      ReadingSpares(cfg, InputSeg(Ring32, cfg, k, w), NextMax(Ring32, m, w), rest, seg, over');
      assert [w] + rest == ws;
    }
  }

  lemma SkipsMore(w: Wire, rest: seq<Wire>, sn: int)
    ensures SkipsOver([w] + rest, sn) <==> (w.cmd == CMD_ACK && Diff(Ring32, w.sn, sn) > 0) || SkipsOver(rest, sn)
  {
    hide Diff;
    var ws := [w] + rest;
    if j :| 0 <= j < |rest| && rest[j].cmd == CMD_ACK && Diff(Ring32, rest[j].sn, sn) > 0 {
      assert ws[j + 1] == rest[j];
    }
    if j :| 0 <= j < |ws| && ws[j].cmd == CMD_ACK && Diff(Ring32, ws[j].sn, sn) > 0 {
      assert j > 0 ==> rest[j - 1] == ws[j];
    }
    assert ws[0] == w;
  }

  /** The loop of ikcp_parse_fastack counts at every segment before the acknowledged number, and at no other. */
  lemma {:induction false} SkipAt(buf: seq<SndSeg>, una: int, limit: int, sn: int, i: nat)
    requires SegsOk(Ring32, una, limit, buf) && 0 <= limit <= MAX_WND && i < |buf|
    requires Norm(Ring32, sn) == sn && 0 <= Diff(Ring32, sn, una) <= MAX_WND
    ensures |Skip(Ring32, buf, sn)| == |buf|
    ensures Skip(Ring32, buf, sn)[i] ==
      if Diff(Ring32, sn, buf[i].sn) > 0 then buf[i].(fastack := U32(buf[i].fastack + 1)) else buf[i]
    decreases |buf|
  {
    hide Diff, Norm, U32;
    DiffShift(Ring32, sn, buf[i].sn, una);
    DiffShift(Ring32, sn, buf[0].sn, una);
    DiffSelf(Ring32, buf[i].sn);
    SkipSame(Ring32, buf, sn);
    if i > 0 {
      assert Diff(Ring32, buf[0].sn, una) < Diff(Ring32, buf[i].sn, una);
    }
    if Diff(Ring32, sn, buf[i].sn) == 0 {
      DiffEq(Ring32, sn, buf[i].sn, una);
    }
    if i > 0 && !(Diff(Ring32, sn, buf[0].sn) < 0) {
      SuffixOk(Ring32, una, limit, buf, 1);
      SkipAt(buf[1..], una, limit, sn, i - 1);
    }
  }

  /** What the end of an input does to a segment that is still there. */
  lemma EndSkips(cfg: Config, k: Kcb, m: MaxAck, prevUna: int, i: nat, over: bool)
    requires ConfigOk(cfg) && KcbInv(Ring32, cfg, k) && i < |k.snd.buf|
    requires MaxIs(m, k.snd.buf[i].sn, k.snd.nxt, over)
    ensures var k' := EndInput(Ring32, cfg, k, m, prevUna);
      && k'.snd.nxt == k.snd.nxt && |k'.snd.buf| == |k.snd.buf|
      && k'.snd.buf[i] == (if over then k.snd.buf[i].(fastack := U32(k.snd.buf[i].fastack + 1)) else k.snd.buf[i])
  {
    hide RcvInv, Sized, Grow, Diff, Norm, U32, Skip;
    var s, seg := k.snd, k.snd.buf[i];
    if m.MaxAck? {
      if over {
        Bracketed(s, seg.sn, m.sn);
      }
      if Sender.Outstanding(Ring32, s, m.sn) {
        BelowNext(s, m.sn);
        SkipAt(s.buf, s.una, Diff(Ring32, s.nxt, s.una), m.sn, i);
      }
    }
  }

  /** A number between one in flight and snd_nxt is outstanding. */
  lemma Bracketed(s: Snd, sn: int, m: int)
    requires 0 <= Diff(Ring32, sn, s.una) <= MAX_WND && 0 < Diff(Ring32, m, sn) < 0x4000_0000
    requires Diff(Ring32, m, s.nxt) < 0
    ensures Sender.Outstanding(Ring32, s, m)
  {
    hide Diff;
    var i := DiffUnfold(Ring32, m, sn);
    var j := DiffUnfold(Ring32, sn, s.una);
    DiffExact(Ring32, m, s.una, i + j);
  }

  lemma BelowNext(s: Snd, m: int)
    requires 0 <= Diff(Ring32, s.nxt, s.una) <= MAX_WND && Sender.Outstanding(Ring32, s, m)
    ensures 0 <= Diff(Ring32, m, s.una) <= MAX_WND
  {
    hide Diff;
    var _ := DiffUnfold(Ring32, m, s.una);
    DiffShift(Ring32, m, s.nxt, s.una);
  }

  /**
   One input that does not acknowledge a segment: its skip count goes up by one
   exactly when the datagram is whole and acknowledges a later number.
   */
  lemma InputSkips(cfg: Config, k: Kcb, b: seq<byte>, seg: SndSeg)
    requires ConfigOk(cfg) && KcbInv(Ring32, cfg, k) && seg in k.snd.buf
    requires Spares(ReadFrom(cfg.conv, b).0, seg.sn) && AllCredible(ReadFrom(cfg.conv, b).0, seg.sn, k.snd.nxt)
    ensures var k', (ws, whole) := InputBytes(cfg, k, b).k, ReadFrom(cfg.conv, b);
      && KcbInv(Ring32, cfg, k') && k'.snd.nxt == k.snd.nxt
      && seg.(fastack := if whole && SkipsOver(ws, seg.sn) then U32(seg.fastack + 1) else seg.fastack) in k'.snd.buf
  {
    hide InputBytes, InputSegs, EndInput, KcbInv, Spares, AllCredible, SkipsOver, ReadFrom, InRing, MaxIs, U32;
    var ws := ReadFrom(cfg.conv, b).0;
    InputReads(cfg, k, b);
    InputBytesKeepsInv(cfg, k, b);
    ReadAllInRing(cfg.conv, b);
    NoneYet(seg.sn, k.snd.nxt);
    ReadingSpares(cfg, k, NoAck, ws, seg, false);
    var (k1, m) := InputSegs(Ring32, cfg, k, NoAck, ws);
    var i :| 0 <= i < |k1.snd.buf| && k1.snd.buf[i] == seg;
    EndSkips(cfg, k1, m, k.snd.una, i, SkipsOver(ws, seg.sn));
    EndIsEnd(cfg, k, ws);
  }

  lemma EndIsEnd(cfg: Config, k: Kcb, ws: seq<Wire>)
    requires cfg.mss > 0
    ensures var (k1, m) := InputSegs(Ring32, cfg, k, NoAck, ws);
      AfterReading(cfg, k, ws) == k1 && Input(Ring32, cfg, k, ws) == EndInput(Ring32, cfg, k1, m, k.snd.una)
  {
    hide InputSegs, EndInput;
  }

  lemma NoneYet(sn: int, nxt: int)
    ensures MaxIs(NoAck, sn, nxt, false)
  {
  }

  lemma ReadAllInRing(conv: int, b: seq<byte>)
    ensures forall j :: 0 <= j < |ReadFrom(conv, b).0| ==> InRing(Ring32, ReadFrom(conv, b).0[j])
  {
    hide InRing, DecodeAll;
    ReadInRing(conv, b);
  }

  /** A call other than a flush that does not acknowledge the number, and acknowledges none that has not been used. */
  predicate Passes(cfg: Config, call: Call, sn: int, nxt: int) {
    && !call.CallFlush?
    && (call.CallInput? ==>
          Spares(ReadFrom(cfg.conv, call.bytes).0, sn) && AllCredible(ReadFrom(cfg.conv, call.bytes).0, sn, nxt))
  }

  /** The call is an input of a whole datagram that acknowledges a later number. */
  predicate SkipCall(cfg: Config, call: Call, sn: int) {
    call.CallInput? && ReadFrom(cfg.conv, call.bytes).1 && SkipsOver(ReadFrom(cfg.conv, call.bytes).0, sn)
  }

  function SkipCount(cfg: Config, calls: seq<Call>, sn: int): (n: nat)
    ensures n <= |calls|
    decreases |calls|
  {
    if calls == [] then 0
    else
      var n := |calls| - 1;
      SkipCount(cfg, calls[..n], sn) + if SkipCall(cfg, calls[n], sn) then 1 else 0
  }

  lemma CallSkips(cfg: Config, k: Kcb, call: Call, seg: SndSeg)
    requires ConfigOk(cfg) && KcbInv(Ring32, cfg, k) && seg in k.snd.buf && Passes(cfg, call, seg.sn, k.snd.nxt)
    requires 0 <= seg.fastack < 0xffff_ffff
    ensures var k' := Apply(cfg, k, call);
      && KcbInv(Ring32, cfg, k') && k'.snd.nxt == k.snd.nxt
      && seg.(fastack := seg.fastack + if SkipCall(cfg, call, seg.sn) then 1 else 0) in k'.snd.buf
  {
    hide InputBytes, KcbInv, Spares, AllCredible, SkipsOver, ReadFrom, Fragments.Enqueue, RecvFront, U32;
    assert seg.(fastack := seg.fastack) == seg;
    Congestion.InRange(seg.fastack + 1);
    match call
    case CallInput(b) => InputSkips(cfg, k, b, seg);
    case CallWrite(alwaysStream, data) => WriteKeepsInv(Ring32, cfg, k, alwaysStream, data);
    case CallRecv(len) => EngineInvariant.RecvKeepsInv(Ring32, cfg, k, len);
    case CallFlushAck => AcksNotInState(cfg, k);
  }

  lemma AcksNotInState(cfg: Config, k: Kcb)
    requires KcbInv(Ring32, cfg, k)
    ensures KcbInv(Ring32, cfg, k.(acks := []))
  {
    hide SndInv, RcvInv, Sized;
  }

  lemma {:induction false} CallsSkip(cfg: Config, k: Kcb, calls: seq<Call>, seg: SndSeg)
    requires ConfigOk(cfg) && KcbInv(Ring32, cfg, k) && seg in k.snd.buf
    requires forall i :: 0 <= i < |calls| ==> Passes(cfg, calls[i], seg.sn, k.snd.nxt)
    requires 0 <= seg.fastack && seg.fastack + |calls| <= 0xffff_ffff
    ensures var k' := AfterFrom(cfg, k, calls);
      && KcbInv(Ring32, cfg, k') && k'.snd.nxt == k.snd.nxt
      && seg.(fastack := seg.fastack + SkipCount(cfg, calls, seg.sn)) in k'.snd.buf
    decreases |calls|
  {
    hide Apply, KcbInv, Passes, SkipCall;
    if calls == [] {
      assert seg.(fastack := seg.fastack + 0) == seg;
    } else {
      var n := |calls| - 1;
      CallsSkip(cfg, k, calls[..n], seg);
      var seg' := seg.(fastack := seg.fastack + SkipCount(cfg, calls[..n], seg.sn));
      CallSkips(cfg, AfterFrom(cfg, k, calls[..n]), calls[n], seg');
    }
  }

  /**
   A segment in flight, any calls but a flush that do not acknowledge it, and
   then a flush: it is sent again exactly when its deadline has passed, or when
   it has been sent at most fastlimit times and enough datagrams have
   acknowledged later numbers.
   */
  lemma SkippedIsResent(cfg: Config, k: Kcb, seg: SndSeg, calls: seq<Call>, current: u32)
    requires ConfigOk(cfg) && KcbInv(Ring32, cfg, k) && seg in k.snd.buf && 0 < seg.xmit < 0x8000_0000
    requires forall i :: 0 <= i < |calls| ==> Passes(cfg, calls[i], seg.sn, k.snd.nxt)
    requires 0 <= seg.fastack && seg.fastack + |calls| < 0xffff_ffff
    ensures var later := AfterFrom(cfg, k, calls);
      Sends(Flush(Ring32, cfg, later, current).wires, seg.sn)
      <==>
      || TimeDiff(current, seg.resendts) >= 0
      || (cfg.fastResend > 0 && seg.fastack + SkipCount(cfg, calls, seg.sn) >= cfg.fastResend
          && (cfg.fastLimit <= 0 || seg.xmit <= cfg.fastLimit))
  {
    hide Apply, KcbInv, Passes, Sends, Flush, I32;
    CallsSkip(cfg, k, calls, seg);
    var later := AfterFrom(cfg, k, calls);
    var seg' := seg.(fastack := seg.fastack + SkipCount(cfg, calls, seg.sn));
    var i :| 0 <= i < |later.snd.buf| && later.snd.buf[i] == seg';
    SentExactly(cfg, later, current, i);
  }
}
