/**
 Window announcements: probing a peer whose window is closed, and telling the
 peer that ours has reopened.
 */
module Probing {
  import opened SerialArith
  import opened Receiver
  import opened Sender
  import opened Codec
  import opened Engine
  import opened EngineInvariant
  import opened Endpoint
  import opened Timers

  /** The probe state after a flush has sent what was pending. */
  function Sent(p: Probe): Probe {
    p.(ask := false, tell := false)
  }

  /** The probe state before the n-th flush of a run in which the peer's window stays 0. */
  function ProbeAt(p: Probe, times: seq<int>, n: nat): Probe
    requires n <= |times|
  {
    if n == 0 then p else Sent(NextProbe(ProbeAt(p, times, n - 1), 0, U32(times[n - 1])))
  }

  /** Whether the n-th flush asks for the window. */
  predicate Asks(p: Probe, times: seq<int>, n: nat)
    requires n < |times|
  {
    NextProbe(ProbeAt(p, times, n), 0, U32(times[n])).ask
  }

  /** Flushes at real times that do not run back, at most gap ms apart. */
  ghost predicate Paced(times: seq<int>, gap: int) {
    && 0 <= gap <= 0x4000_0000
    && forall i :: 0 <= i < |times| - 1 ==> 0 <= times[i + 1] - times[i] <= gap
  }

  /** As before the first probe, or as after one. */
  predicate ProbeStart(p: Probe) {
    !p.ask && (p.wait == 0 || PROBE_INIT <= p.wait <= PROBE_LIMIT)
  }

  lemma NextInRange(p: Probe, current: u32)
    requires ProbeStart(p)
    ensures var q := Sent(NextProbe(p, 0, current));
      ProbeStart(q) && PROBE_INIT <= q.wait <= PROBE_LIMIT
  {
    hide I32;
  }

  lemma {:induction false} TimerInRange(p: Probe, times: seq<int>, n: nat)
    requires ProbeStart(p) && n <= |times|
    ensures ProbeStart(ProbeAt(p, times, n))
    ensures n > 0 ==> PROBE_INIT <= ProbeAt(p, times, n).wait <= PROBE_LIMIT
  {
    hide NextProbe, ProbeStart;
    if n > 0 {
      TimerInRange(p, times, n - 1);
      NextInRange(ProbeAt(p, times, n - 1), U32(times[n - 1]));
    } else {
      assert ProbeAt(p, times, 0) == p;
    }
  }

  /** A flush that sets the back-off arms the next probe. */
  lemma SettingArms(p: Probe, time: int)
    requires ProbeStart(p)
    requires p.wait == 0 || NextProbe(p, 0, U32(time)).ask
    ensures var q := Sent(NextProbe(p, 0, U32(time)));
      PROBE_INIT <= q.wait <= PROBE_LIMIT && TimeDiff(q.ts, U32(time)) == q.wait
  {
    hide I32;
    var q := Sent(NextProbe(p, 0, U32(time)));
    WrapDiff(U32(time) + q.wait, U32(time));
    DiffNorm(Ring32, U32(time) + q.wait, U32(time));
  }

  /**
   While no flush asks, the deadline stays where it was and has not been
   reached.
   */
  lemma {:induction false} Waiting(p: Probe, times: seq<int>, gap: int, i: nat, n: nat)
    requires ProbeStart(p) && Paced(times, gap) && i <= n < |times|
    requires var q := ProbeAt(p, times, i + 1);
      PROBE_INIT <= q.wait <= PROBE_LIMIT && TimeDiff(q.ts, U32(times[i])) <= q.wait && 0 < TimeDiff(q.ts, U32(times[i]))
    requires forall j :: i < j <= n ==> !Asks(p, times, j)
    ensures ProbeAt(p, times, n + 1) == ProbeAt(p, times, i + 1)
    ensures times[n] - times[i] < TimeDiff(ProbeAt(p, times, i + 1).ts, U32(times[i]))
    decreases n
  {
    hide I32, U32;
    if n > i {
      Waiting(p, times, gap, i, n - 1);
      var q := ProbeAt(p, times, i + 1);
      assert !Asks(p, times, n);
      SpreadOut(times, gap, i, n);
      Pending(q.ts, times[i], times[n], TimeDiff(q.ts, U32(times[i])));
    }
  }

  /** A wrapped deadline d ms after one time, seen from a later time. */
  lemma Pending(ts: int, start: int, now: int, d: int)
    requires TimeDiff(ts, U32(start)) == d && 0 < d <= PROBE_LIMIT && 0 <= now - start < 0x5000_0000
    ensures TimeDiff(U32(now), ts) >= 0 <==> now - start >= d
  {
    WrapDiff(now, start);
    DiffShift(Ring32, U32(now), ts, U32(start));
  }

  /** The last flush before the probe's deadline is at most gap ms before the next one. */
  lemma {:induction false} FirstLate(times: seq<int>, gap: int, i: nat, n: nat, d: int) returns (m: nat)
    requires Paced(times, gap) && i <= n < |times| && d > 0
    requires times[n] - times[i] >= d
    ensures i < m <= n && d <= times[m] - times[i] <= d + gap
    decreases n
  {
    if times[n - 1] - times[i] >= d {
      m := FirstLate(times, gap, i, n - 1, d);
    } else {
      m := n;
    }
  }

  /** After the i-th flush the deadline is ahead, and no further than the back-off. */
  predicate CountsDown(p: Probe, times: seq<int>, i: nat)
    requires i < |times|
  {
    var q := ProbeAt(p, times, i + 1);
    PROBE_INIT <= q.wait <= PROBE_LIMIT && 0 < TimeDiff(q.ts, U32(times[i])) <= q.wait
  }

  /** A flush after which the deadline is ahead is followed within the limit by one that asks. */
  lemma NextAsk(p: Probe, times: seq<int>, gap: int, i: nat) returns (j: nat)
    requires ProbeStart(p) && Paced(times, gap) && i < |times| && CountsDown(p, times, i)
    requires times[|times| - 1] - times[i] >= PROBE_LIMIT
    ensures i < j < |times| && Asks(p, times, j)
    ensures times[j] - times[i] <= PROBE_LIMIT + gap
  {
    hide U32, I32;
    var m := FirstLate(times, gap, i, |times| - 1, PROBE_LIMIT);
    if k :| i < k <= m && Asks(p, times, k) {
      SpreadOut(times, gap, k, m);
      j := k;
    } else {
      Waiting(p, times, gap, i, m);
      assert false;
    }
  }

  /** The last flush up to n that asks, or the first one. */
  lemma {:induction false} LastAsk(p: Probe, times: seq<int>, n: nat) returns (i: nat)
    requires n < |times|
    ensures i <= n && (i == 0 || Asks(p, times, i))
    ensures forall k :: i < k <= n ==> !Asks(p, times, k)
  {
    i := n;
    if n > 0 && !Asks(p, times, n) {
      i := LastAsk(p, times, n - 1);
    }
  }

  /** A deadline that is not further than the back-off when the clock reads now; it may be over. */
  predicate Armed(p: Probe, now: u32) {
    ProbeStart(p) && (p.wait == 0 || -0x8000_0000 < TimeDiff(p.ts, now) <= p.wait)
  }

  /** Over or not, after the flush the deadline is ahead. */
  lemma ArmedCountsDown(p: Probe, times: seq<int>)
    requires times != [] && Armed(p, U32(times[0]))
    ensures CountsDown(p, times, 0)
  {
    hide I32, U32;
    var now := U32(times[0]);
    assert ProbeAt(p, times, 0) == p;
    if p.wait == 0 || NextProbe(p, 0, now).ask {
      SettingArms(p, times[0]);
    } else {
      DiffBack(p.ts, now);
    }
  }

  /** Inside the half range the distance back is the negative. */
  lemma DiffBack(a: int, b: int)
    requires TimeDiff(a, b) > -0x8000_0000
    ensures TimeDiff(b, a) == -TimeDiff(a, b)
  {
  }

  /** Every flush is followed within the limit by one that asks. */
  lemma AsksKeepComing(p: Probe, times: seq<int>, gap: int, n: nat) returns (j: nat)
    requires Paced(times, gap) && n < |times| && Armed(p, U32(times[0]))
    requires times[|times| - 1] - times[n] >= PROBE_LIMIT
    ensures n < j < |times| && Asks(p, times, j)
    ensures times[j] - times[n] <= PROBE_LIMIT + gap
  {
    hide U32, I32;
    var i := LastAsk(p, times, n);
    if i == 0 {
      ArmedCountsDown(p, times);
    } else {
      TimerInRange(p, times, i);
      SettingArms(ProbeAt(p, times, i), times[i]);
    }
    SpreadOut(times, gap, i, n);
    j := NextAsk(p, times, gap, i);
  }

  lemma {:induction false} SpreadOut(times: seq<int>, gap: int, a: nat, b: nat)
    requires Paced(times, gap) && a <= b < |times|
    ensures times[a] <= times[b]
    decreases b
  {
    if a < b {
      SpreadOut(times, gap, a, b - 1);
    }
  }

  // ---------------------------------------------------------------------
  // The back-off
  // ---------------------------------------------------------------------

  /** The back-off after c probes of one closed period: 7 seconds, half as much again each time, at most 120. */
  function BackOffAfter(c: nat): (w: int)
    ensures PROBE_INIT <= w <= PROBE_LIMIT
  {
    if c == 0 then 7000 else Min(BackOffAfter(c - 1) + BackOffAfter(c - 1) / 2, 120000)
  }

  /** How many of the first n flushes ask. */
  function CountAsks(p: Probe, times: seq<int>, n: nat): nat
    requires n <= |times|
  {
    if n == 0 then 0 else CountAsks(p, times, n - 1) + if Asks(p, times, n - 1) then 1 else 0
  }

  lemma AskLengthens(p: Probe, now: u32)
    requires PROBE_INIT <= p.wait <= PROBE_LIMIT && !p.ask
    ensures Sent(NextProbe(p, 0, now)).wait == if NextProbe(p, 0, now).ask then Min(p.wait + p.wait / 2, 120000) else p.wait
  {
    hide I32;
  }

  lemma {:induction false} WaitIsBackOff(p: Probe, times: seq<int>, n: nat)
    requires p.wait == 0 && !p.ask && 0 < n <= |times|
    ensures ProbeAt(p, times, n).wait == BackOffAfter(CountAsks(p, times, n)) && !ProbeAt(p, times, n).ask
    decreases n
  {
    hide I32, U32, NextProbe;
    if n == 1 {
      FirstClosed(p, U32(times[0]));
      assert ProbeAt(p, times, 0) == p && CountAsks(p, times, 0) == 0;
    } else {
      WaitIsBackOff(p, times, n - 1);
      AskLengthens(ProbeAt(p, times, n - 1), U32(times[n - 1]));
    }
  }

  lemma FirstClosed(p: Probe, now: u32)
    requires p.wait == 0 && !p.ask
    ensures !NextProbe(p, 0, now).ask && Sent(NextProbe(p, 0, now)).wait == 7000
  {
  }

  /**
   From the first flush of a closed period, or from one that asks, to the next
   that asks: the back-off passes, and not more than one gap beyond it.
   */
  lemma AsksAreSpaced(p: Probe, times: seq<int>, gap: int, i: nat, j: nat)
    requires p.wait == 0 && !p.ask && Paced(times, gap) && i < j < |times|
    requires (i == 0 || Asks(p, times, i)) && Asks(p, times, j) && forall m :: i < m < j ==> !Asks(p, times, m)
    ensures BackOffAfter(CountAsks(p, times, j)) <= times[j] - times[i] <= BackOffAfter(CountAsks(p, times, j)) + gap
  {
    hide I32, U32, NextProbe, Paced, ProbeStart, ProbeAt;
    ArmedAfter(p, times, i);
    WaitIsBackOff(p, times, i + 1);
    StillWaiting(p, times, gap, i, j);
    SameCount(p, times, i, j);
    var q := ProbeAt(p, times, i + 1);
    AskOf(p, times, j);
    AskIsDue(q, U32(times[j]));
    SpreadOut(times, gap, i, j);
    OneGap(times, gap, j - 1);
    Pending(q.ts, times[i], times[j], q.wait);
  }

  /** Until the next flush that asks nothing has changed, and the deadline is ahead. */
  lemma StillWaiting(p: Probe, times: seq<int>, gap: int, i: nat, j: nat)
    requires ProbeStart(p) && Paced(times, gap) && i < j < |times| && forall m :: i < m < j ==> !Asks(p, times, m)
    requires var q := ProbeAt(p, times, i + 1); PROBE_INIT <= q.wait <= PROBE_LIMIT && TimeDiff(q.ts, U32(times[i])) == q.wait
    ensures ProbeAt(p, times, j) == ProbeAt(p, times, i + 1)
    ensures times[j - 1] - times[i] < ProbeAt(p, times, i + 1).wait
  {
    hide I32, U32, NextProbe, Paced, ProbeStart, Asks;
    Waiting(p, times, gap, i, j - 1);
  }

  /** The first flush of a closed period, and one that asks, set the deadline for one back-off later. */
  lemma ArmedAfter(p: Probe, times: seq<int>, i: nat)
    requires p.wait == 0 && !p.ask && i < |times| && (i == 0 || Asks(p, times, i))
    ensures ProbeStart(p)
    ensures var q := ProbeAt(p, times, i + 1);
      PROBE_INIT <= q.wait <= PROBE_LIMIT && TimeDiff(q.ts, U32(times[i])) == q.wait
  {
    hide I32, U32, NextProbe;
    TimerInRange(p, times, i);
    assert ProbeAt(p, times, 0) == p;
    SettingArms(ProbeAt(p, times, i), times[i]);
  }

  lemma AskOf(p: Probe, times: seq<int>, j: nat)
    requires p.wait == 0 && !p.ask && 0 < j < |times| && Asks(p, times, j)
    ensures NextProbe(ProbeAt(p, times, j), 0, U32(times[j])).ask && !ProbeAt(p, times, j).ask
  {
    hide NextProbe, U32;
    WaitIsBackOff(p, times, j);
  }

  lemma OneGap(times: seq<int>, gap: int, i: nat)
    requires Paced(times, gap) && i + 1 < |times|
    ensures 0 <= times[i + 1] - times[i] <= gap <= 0x4000_0000
  {
  }

  lemma {:induction false} SameCount(p: Probe, times: seq<int>, i: nat, j: nat)
    requires i < j <= |times| && forall m :: i < m < j ==> !Asks(p, times, m)
    ensures CountAsks(p, times, j) == CountAsks(p, times, i + 1)
    decreases j
  {
    hide Asks;
    if j > i + 1 {
      SameCount(p, times, i, j - 1);
    }
  }

  lemma AskIsDue(q: Probe, now: u32)
    requires NextProbe(q, 0, now).ask && !q.ask
    ensures TimeDiff(now, q.ts) >= 0
  {
    hide I32;
  }

  // ---------------------------------------------------------------------
  // What the calls of one end do to the probe state
  // ---------------------------------------------------------------------

  /** The flags and times that only a flush may change are the same, and a pending announcement stays. */
  predicate OnlyTells(before: Probe, after: Probe) {
    after.ask == before.ask && after.wait == before.wait && after.ts == before.ts && (before.tell ==> after.tell)
  }

  lemma SegOnlyTells(cfg: Config, k: Kcb, w: Wire)
    ensures OnlyTells(k.probe, InputSeg(Ring32, cfg, k, w).probe)
  {
  }

  lemma {:induction false} LoopOnlyTells(cfg: Config, k: Kcb, m: MaxAck, b: seq<byte>, prevUna: int)
    requires cfg.mss > 0
    ensures OnlyTells(k.probe, InputLoop(cfg, k, m, b, prevUna).k.probe)
    decreases |b|
  {
    hide InputSeg, Parse, NextMax, Grow;
    match Parse(cfg.conv, b)
    case Segment(w, rest) =>
      SegOnlyTells(cfg, k, w);
      LoopOnlyTells(cfg, InputSeg(Ring32, cfg, k, w), NextMax(Ring32, m, w), rest, prevUna);
    case _ =>
  }

  /** Between two flushes nothing but the wish to announce the window changes, and that only comes. */
  lemma OthersOnlyTell(cfg: Config, k: Kcb, call: Call)
    requires cfg.mss > 0 && !call.CallFlush?
    ensures OnlyTells(k.probe, Apply(cfg, k, call).probe)
  {
    hide InputLoop, Fragments.Enqueue, RecvFront;
    if call.CallInput? {
      LoopOnlyTells(cfg, k, NoAck, call.bytes, k.snd.una);
    }
  }

  lemma {:induction false} OtherCallsOnlyTell(cfg: Config, k: Kcb, calls: seq<Call>)
    requires cfg.mss > 0 && forall i :: 0 <= i < |calls| ==> !calls[i].CallFlush?
    ensures OnlyTells(k.probe, AfterFrom(cfg, k, calls).probe)
    decreases |calls|
  {
    hide Apply;
    if calls != [] {
      var n := |calls| - 1;
      OtherCallsOnlyTell(cfg, k, calls[..n]);
      OthersOnlyTell(cfg, AfterFrom(cfg, k, calls[..n]), calls[n]);
    }
  }

  /** A flush sends WASK exactly when the timer says so. */
  lemma FlushAsksExactly(cfg: Config, k: Kcb, current: u32)
    ensures SendsWask(Flush(Ring32, cfg, k, current).wires) <==> NextProbe(k.probe, k.rmtWnd, current).ask
    ensures Flush(Ring32, cfg, k, current).k.probe == Sent(NextProbe(k.probe, k.rmtWnd, current))
  {
    hide NextProbe, Filled, SweepAll, AfterLoss, WndUnused, KindOf, CountKind, NextDeadline;
    var p := NextProbe(k.probe, k.rmtWnd, current);
    PushesAreData(cfg, k, current, Filled(Ring32, cfg, k, current).buf);
    var ws := Flush(Ring32, cfg, k, current).wires;
    if p.ask {
      assert ProbeWires(cfg, k, p)[0].cmd == CMD_WASK;
      assert ws[|k.acks|] == ProbeWires(cfg, k, p)[0];
    }
  }

  predicate SendsWask(ws: seq<Wire>) {
    exists i :: 0 <= i < |ws| && ws[i].cmd == CMD_WASK
  }

  lemma {:induction false} PushesAreData(cfg: Config, k: Kcb, current: u32, buf: seq<SndSeg>)
    ensures forall i :: 0 <= i < |PushWires(cfg, k, current, buf)| ==> PushWires(cfg, k, current, buf)[i].cmd == CMD_PUSH
  {
    hide KindOf, WndUnused;
    if buf != [] {
      PushesAreData(cfg, k, current, buf[1..]);
    }
  }

  // ---------------------------------------------------------------------
  // Runs of one end
  // ---------------------------------------------------------------------

  /** A call and the time it is made, in milliseconds that do not wrap. */
  datatype Timed = Timed(now: int, call: Call)

  function StateAt(cfg: Config, k: Kcb, run: seq<Timed>, n: nat): Kcb
    requires cfg.mss > 0 && n <= |run|
  {
    if n == 0 then k else Apply(cfg, StateAt(cfg, k, run, n - 1), run[n - 1].call)
  }

  /** The times of the flushes among the first n calls. */
  function FlushTimes(run: seq<Timed>, n: nat): (ts: seq<int>)
    requires n <= |run|
    ensures |ts| <= n
  {
    if n == 0 then [] else FlushTimes(run, n - 1) + if run[n - 1].call.CallFlush? then [run[n - 1].now] else []
  }

  /**
   A run with the peer's window closed all the time: a flush is told the time
   it is made, and flushes are at most gap ms apart.
   */
  ghost predicate ClosedRun(cfg: Config, k: Kcb, run: seq<Timed>, gap: int)
    requires cfg.mss > 0
  {
    && (forall n: nat :: n <= |run| ==> StateAt(cfg, k, run, n).rmtWnd == 0)
    && (forall i :: 0 <= i < |run| && run[i].call.CallFlush? ==> run[i].call.current == U32(run[i].now))
    && Paced(FlushTimes(run, |run|), gap)
  }

  /** The n-th call is a flush, and a WASK is among the segments it sends. */
  predicate Probes(cfg: Config, k: Kcb, run: seq<Timed>, n: nat)
    requires cfg.mss > 0 && n < |run|
  {
    run[n].call.CallFlush? && SendsWask(Flush(Ring32, cfg, StateAt(cfg, k, run, n), run[n].call.current).wires)
  }

  lemma {:induction false} TimesArePrefix(run: seq<Timed>, n: nat, m: nat)
    requires n <= m <= |run|
    ensures FlushTimes(run, n) <= FlushTimes(run, m)
    decreases m
  {
    if n < m {
      TimesArePrefix(run, n, m - 1);
    }
  }

  /** The place of a flush among all flushes. */
  lemma FlushIsTimed(run: seq<Timed>, n: nat)
    requires n < |run| && run[n].call.CallFlush?
    ensures |FlushTimes(run, n)| < |FlushTimes(run, |run|)|
    ensures FlushTimes(run, |run|)[|FlushTimes(run, n)|] == run[n].now
  {
    TimesArePrefix(run, n + 1, |run|);
  }

  /** The j-th flush of a run. */
  lemma {:induction false} FlushNumber(run: seq<Timed>, m: nat, j: nat) returns (n: nat)
    requires m <= |run| && j < |FlushTimes(run, m)|
    ensures n < m && run[n].call.CallFlush? && |FlushTimes(run, n)| == j
    decreases m
  {
    if j < |FlushTimes(run, m - 1)| {
      n := FlushNumber(run, m - 1, j);
    } else {
      n := m - 1;
    }
  }

  /** Only the timer matters to the timer. */
  lemma NextProbeTimer(p: Probe, q: Probe, current: u32)
    requires OnlyTells(p, q)
    ensures OnlyTells(Sent(NextProbe(p, 0, current)), Sent(NextProbe(q, 0, current)))
    ensures NextProbe(p, 0, current).ask == NextProbe(q, 0, current).ask
  {
  }

  /** In a run of any calls the timer is what the flushes alone make it. */
  lemma {:induction false} TimerFollows(cfg: Config, k: Kcb, run: seq<Timed>, gap: int, n: nat)
    requires cfg.mss > 0 && ClosedRun(cfg, k, run, gap) && n <= |run|
    ensures var times := FlushTimes(run, |run|);
      && |FlushTimes(run, n)| <= |times|
      && OnlyTells(ProbeAt(k.probe.(tell := false), times, |FlushTimes(run, n)|), StateAt(cfg, k, run, n).probe)
  {
    hide Apply, NextProbe, Paced, Flush;
    var times := FlushTimes(run, |run|);
    TimesArePrefix(run, n, |run|);
    if n > 0 {
      var call, before := run[n - 1].call, StateAt(cfg, k, run, n - 1);
      TimerFollows(cfg, k, run, gap, n - 1);
      assert before.rmtWnd == 0;
      if call.CallFlush? {
        FlushIsTimed(run, n - 1);
        FlushAsksExactly(cfg, before, call.current);
        NextProbeTimer(ProbeAt(k.probe.(tell := false), times, |FlushTimes(run, n - 1)|), before.probe, call.current);
        ApplyFlush(cfg, before, call.current);
      } else {
        OthersOnlyTell(cfg, before, call);
      }
    }
  }

  lemma ApplyFlush(cfg: Config, k: Kcb, current: u32)
    requires cfg.mss > 0
    ensures Apply(cfg, k, CallFlush(current)) == Flush(Ring32, cfg, k, current).k
  {
    hide Flush;
  }

  lemma ProbesAreAsks(cfg: Config, k: Kcb, run: seq<Timed>, gap: int, n: nat)
    requires cfg.mss > 0 && ClosedRun(cfg, k, run, gap) && n < |run| && run[n].call.CallFlush?
    ensures |FlushTimes(run, n)| < |FlushTimes(run, |run|)|
    ensures Probes(cfg, k, run, n) <==> Asks(k.probe.(tell := false), FlushTimes(run, |run|), |FlushTimes(run, n)|)
  {
    hide NextProbe, Paced, Flush, SendsWask;
    var before := StateAt(cfg, k, run, n);
    FlushIsTimed(run, n);
    TimerFollows(cfg, k, run, gap, n);
    FlushAsksExactly(cfg, before, run[n].call.current);
    assert before.rmtWnd == 0;
    NextProbeTimer(ProbeAt(k.probe.(tell := false), FlushTimes(run, |run|), |FlushTimes(run, n)|), before.probe,
                   run[n].call.current);
  }

  /**
   While the peer's window stays closed, from the first flush on probe_wait is
   between 7 and 120 seconds, whatever calls are made in between.
   */
  lemma WaitInRange(cfg: Config, k: Kcb, run: seq<Timed>, gap: int, n: nat)
    requires cfg.mss > 0 && ProbeStart(k.probe) && ClosedRun(cfg, k, run, gap) && n <= |run|
    ensures ProbeStart(StateAt(cfg, k, run, n).probe)
    ensures FlushTimes(run, n) != [] ==> PROBE_INIT <= StateAt(cfg, k, run, n).probe.wait <= PROBE_LIMIT
  {
    hide NextProbe, Paced, Apply;
    TimerFollows(cfg, k, run, gap, n);
    TimerInRange(k.probe.(tell := false), FlushTimes(run, |run|), |FlushTimes(run, n)|);
  }

  /**
   A state from which a closed window can be followed: the deadline of a back-off
   under way was set for later than the last flush, by at most the back-off.
   */
  predicate CanStart(k: Kcb) {
    ProbeStart(k.probe) && (k.probe.wait == 0 || 0 < TimeDiff(k.probe.ts, k.current) <= k.probe.wait)
  }

  /** Seen from a later time the deadline is nearer, or over. */
  lemma StillArmed(k: Kcb, now: u32)
    requires CanStart(k) && TimeDiff(now, k.current) >= 0
    ensures Armed(k.probe, now)
  {
    hide I32;
    if k.probe.wait != 0 {
      DiffBounds(now, k.current);
      DiffShift(Ring32, k.probe.ts, now, k.current);
    }
  }

  lemma DiffBounds(a: int, b: int)
    ensures -0x8000_0000 <= TimeDiff(a, b) < 0x8000_0000
  {
  }

  /**
   While the peer's window stays closed and flushes are at most gap ms apart,
   every flush is followed within 120000 + gap ms by one that sends a WASK,
   whatever other calls the run makes, and whether the back-off starts in the
   run or was under way before it.
   */
  lemma ProbesKeepComing(cfg: Config, k: Kcb, run: seq<Timed>, gap: int, n: nat) returns (m: nat)
    requires cfg.mss > 0 && CanStart(k) && ClosedRun(cfg, k, run, gap)
    requires n < |run| && run[n].call.CallFlush?
    requires var times := FlushTimes(run, |run|);
      && times != [] && TimeDiff(U32(times[0]), k.current) >= 0
      && times[|times| - 1] - run[n].now >= PROBE_LIMIT
    ensures m < |run| && Probes(cfg, k, run, m) && 0 <= run[m].now - run[n].now <= PROBE_LIMIT + gap
    ensures |FlushTimes(run, n)| < |FlushTimes(run, m)|
  {
    hide NextProbe, Paced, Apply, Asks, Probes, I32, U32;
    var times := FlushTimes(run, |run|);
    FlushIsTimed(run, n);
    StillArmed(k, U32(times[0]));
    var j := AsksKeepComing(k.probe.(tell := false), times, gap, |FlushTimes(run, n)|);
    m := FlushNumber(run, |run|, j);
    FlushIsTimed(run, m);
    ProbesAreAsks(cfg, k, run, gap, m);
    SpreadOut(times, gap, |FlushTimes(run, n)|, j);
  }

  /** How many of the first n calls are flushes that send a WASK. */
  function ProbeCount(cfg: Config, k: Kcb, run: seq<Timed>, n: nat): nat
    requires cfg.mss > 0 && n <= |run|
  {
    if n == 0 then 0 else ProbeCount(cfg, k, run, n - 1) + if Probes(cfg, k, run, n - 1) then 1 else 0
  }

  lemma {:induction false} ProbesCountAsks(cfg: Config, k: Kcb, run: seq<Timed>, gap: int, n: nat)
    requires cfg.mss > 0 && ClosedRun(cfg, k, run, gap) && n <= |run|
    ensures |FlushTimes(run, n)| <= |FlushTimes(run, |run|)|
    ensures ProbeCount(cfg, k, run, n) == CountAsks(k.probe.(tell := false), FlushTimes(run, |run|), |FlushTimes(run, n)|)
    decreases n
  {
    hide ClosedRun, Probes, Asks;
    TimesArePrefix(run, n, |run|);
    if n > 0 {
      ProbesCountAsks(cfg, k, run, gap, n - 1);
      if run[n - 1].call.CallFlush? {
        ProbesAreAsks(cfg, k, run, gap, n - 1);
      } else {
        NoProbe(cfg, k, run, n - 1);
      }
    }
  }

  lemma NoProbe(cfg: Config, k: Kcb, run: seq<Timed>, n: nat)
    requires cfg.mss > 0 && n < |run| && !run[n].call.CallFlush?
    ensures !Probes(cfg, k, run, n)
  {
  }

  lemma {:induction false} AsksBetween(cfg: Config, k: Kcb, run: seq<Timed>, gap: int, n: nat, m: nat, j: nat)
    requires cfg.mss > 0 && ClosedRun(cfg, k, run, gap) && n < m < |run| && run[n].call.CallFlush? && run[m].call.CallFlush?
    requires forall i :: n < i < m ==> !Probes(cfg, k, run, i)
    requires |FlushTimes(run, n)| < j < |FlushTimes(run, m)|
    ensures j < |FlushTimes(run, |run|)| && !Asks(k.probe.(tell := false), FlushTimes(run, |run|), j)
  {
    hide ClosedRun, Probes, Asks;
    TimesArePrefix(run, m, |run|);
    var i := FlushNumber(run, m, j);
    if i <= n {
      TimesArePrefix(run, i, n);
    } else {
      ProbesAreAsks(cfg, k, run, gap, i);
    }
  }

  /**
   While the peer's window stays closed the probes follow the back-off: from the
   first flush, or from a probe, to the next probe the time is the back-off
   after the probes so far, and at most one gap more.
   */
  lemma ProbesFollowBackOff(cfg: Config, k: Kcb, run: seq<Timed>, gap: int, n: nat, m: nat)
    requires cfg.mss > 0 && k.probe.wait == 0 && !k.probe.ask && ClosedRun(cfg, k, run, gap)
    requires n < m < |run| && run[n].call.CallFlush? && (FlushTimes(run, n) == [] || Probes(cfg, k, run, n))
    requires Probes(cfg, k, run, m) && forall i :: n < i < m ==> !Probes(cfg, k, run, i)
    ensures var wait := BackOffAfter(ProbeCount(cfg, k, run, m));
      wait <= run[m].now - run[n].now <= wait + gap
  {
    hide ProbeCount, Asks, Paced, Apply, Flush, SendsWask, FlushTimes, Probes, StateAt, CountAsks;
    ProbeIsFlush(cfg, k, run, m);
    FirstOrProbe(run, n);
    var p, times := k.probe.(tell := false), FlushTimes(run, |run|);
    var i, j := |FlushTimes(run, n)|, |FlushTimes(run, m)|;
    FlushIsTimed(run, n);
    FlushIsTimed(run, m);
    ProbesAreAsks(cfg, k, run, gap, n);
    ProbesAreAsks(cfg, k, run, gap, m);
    ProbesCountAsks(cfg, k, run, gap, m);
    TimesArePrefix(run, n + 1, m);
    forall l | i < l < j
      ensures !Asks(p, times, l)
    {
      AsksBetween(cfg, k, run, gap, n, m, l);
    }
    AsksAreSpaced(p, times, gap, i, j);
  }

  lemma ProbeIsFlush(cfg: Config, k: Kcb, run: seq<Timed>, m: nat)
    requires cfg.mss > 0 && m < |run| && Probes(cfg, k, run, m)
    ensures run[m].call.CallFlush?
  {
  }

  lemma FirstOrProbe(run: seq<Timed>, n: nat)
    requires n < |run| && run[n].call.CallFlush?
    ensures |FlushTimes(run, n + 1)| == |FlushTimes(run, n)| + 1
  {
  }

  /** A flush that finds the peer's window open ends the back-off. */
  lemma OpenEndsBackOff(cfg: Config, k: Kcb, current: u32)
    requires k.rmtWnd != 0
    ensures Flush(Ring32, cfg, k, current).k.probe.wait == 0 && !Flush(Ring32, cfg, k, current).k.probe.ask
  {
    hide Filled, SweepAll, AfterLoss, AckWires, ProbeWires, PushWires;
  }

  /** Only a flush moves the time. */
  lemma OthersKeepTime(cfg: Config, k: Kcb, call: Call)
    requires cfg.mss > 0 && !call.CallFlush?
    ensures Apply(cfg, k, call).current == k.current
  {
    hide InputLoop, Fragments.Enqueue, RecvFront;
    if call.CallInput? {
      LoopKeepsTime(cfg, k, NoAck, call.bytes, k.snd.una);
    }
  }

  lemma {:induction false} LoopKeepsTime(cfg: Config, k: Kcb, m: MaxAck, b: seq<byte>, prevUna: int)
    requires cfg.mss > 0
    ensures InputLoop(cfg, k, m, b, prevUna).k.current == k.current
    decreases |b|
  {
    hide Parse, NextMax, Grow, ParseUna, ParseAck, ParseData, UpdateAck, ParseFastack, Diff;
    match Parse(cfg.conv, b)
    case Segment(w, rest) => LoopKeepsTime(cfg, InputSeg(Ring32, cfg, k, w), NextMax(Ring32, m, w), rest, prevUna);
    case _ =>
  }

  /** A flush at a time that is not before the last one sets the deadline ahead, or leaves it ahead. */
  lemma FlushArms(p: Probe, rmtWnd: int, last: int, now: u32)
    requires ProbeStart(p) && (p.wait == 0 || 0 < TimeDiff(p.ts, last) <= p.wait) && TimeDiff(now, last) >= 0
    ensures var q := Sent(NextProbe(p, rmtWnd, now));
      ProbeStart(q) && (q.wait == 0 || 0 < TimeDiff(q.ts, now) <= q.wait)
  {
    hide I32, U32;
    if rmtWnd == 0 {
      if p.wait == 0 || NextProbe(p, 0, now).ask {
        AlreadyWrapped(now);
        NextInRange(p, now);
        SettingArms(p, now);
      } else {
        NotYetDue(p.ts, last, now, p.wait);
      }
    }
  }

  lemma AlreadyWrapped(x: u32)
    ensures U32(x) == x
  {
  }

  lemma ApplyKeepsStart(cfg: Config, k: Kcb, call: Call)
    requires cfg.mss > 0 && CanStart(k)
    requires call.CallFlush? ==> TimeDiff(call.current, k.current) >= 0
    ensures CanStart(Apply(cfg, k, call))
  {
    hide Apply, Flush, NextProbe, I32;
    if call.CallFlush? {
      ApplyFlush(cfg, k, call.current);
      FlushAsksExactly(cfg, k, call.current);
      FlushArms(k.probe, k.rmtWnd, k.current, call.current);
      FlushSetsTime(cfg, k, call.current);
    } else {
      OthersOnlyTell(cfg, k, call);
      OthersKeepTime(cfg, k, call);
    }
  }

  lemma FlushSetsTime(cfg: Config, k: Kcb, current: u32)
    ensures Flush(Ring32, cfg, k, current).k.current == current
  {
  }

  /** With a clock that does not run back, every state one end can reach is one that such a run can start from. */
  lemma {:induction false} EveryStateCanStart(cfg: Config, calls: seq<Call>)
    requires cfg.mss > 0 && ClockRuns(cfg, calls)
    ensures CanStart(After(cfg, calls))
    decreases |calls|
  {
    hide Apply, CanStart, I32;
    if calls == [] {
      FreshStart(cfg);
    } else {
      var n := |calls| - 1;
      EveryStateCanStart(cfg, calls[..n]);
      ApplyKeepsStart(cfg, After(cfg, calls[..n]), calls[n]);
    }
  }

  lemma FreshStart(cfg: Config)
    ensures CanStart(Fresh(cfg))
  {
  }

  /**
   The same for any closed period of any run of one end: whatever calls came
   before it, and however far the back-off had come.
   */
  lemma EveryClosedPeriodProbes(cfg: Config, calls: seq<Call>, run: seq<Timed>, gap: int, n: nat) returns (m: nat)
    requires cfg.mss > 0 && ClockRuns(cfg, calls) && ClosedRun(cfg, After(cfg, calls), run, gap)
    requires n < |run| && run[n].call.CallFlush?
    requires var times := FlushTimes(run, |run|);
      && times != [] && TimeDiff(U32(times[0]), After(cfg, calls).current) >= 0
      && times[|times| - 1] - run[n].now >= PROBE_LIMIT
    ensures m < |run| && Probes(cfg, After(cfg, calls), run, m) && 0 <= run[m].now - run[n].now <= PROBE_LIMIT + gap
    ensures |FlushTimes(run, n)| < |FlushTimes(run, m)|
  {
    hide ClosedRun, CanStart, Probes, Apply, I32, U32;
    EveryStateCanStart(cfg, calls);
    m := ProbesKeepComing(cfg, After(cfg, calls), run, gap, n);
  }

  // ---------------------------------------------------------------------
  // Reopening our own window
  // ---------------------------------------------------------------------

  /** A pending announcement is sent by the next flush, and is then no longer pending. */
  lemma PendingIsTold(cfg: Config, k: Kcb, current: u32)
    requires k.probe.tell
    ensures Control(cfg, k, CMD_WINS, LastAck(k.acks)) in Flush(Ring32, cfg, k, current).wires
    ensures !Flush(Ring32, cfg, k, current).k.probe.tell
  {
    hide Control, PushWires, AckWires, Filled, SweepAll, AfterLoss;
    var p := NextProbe(k.probe, k.rmtWnd, current);
    assert p.tell;
    assert Control(cfg, k, CMD_WINS, LastAck(k.acks)) in ProbeWires(cfg, k, p);
  }

  /**
   A receive that makes room in a full queue obliges the next flush to
   announce the window, whatever calls are made in between.
   */
  lemma ReopenedIsTold(cfg: Config, k: Kcb, len: int, calls: seq<Call>, current: u32)
    requires cfg.mss > 0 && |k.rcv.que| >= cfg.rcvWnd && |Recv(Ring32, cfg, k, len).0.rcv.que| < cfg.rcvWnd
    requires forall i :: 0 <= i < |calls| ==> !calls[i].CallFlush?
    ensures var later := AfterFrom(cfg, Recv(Ring32, cfg, k, len).0, calls);
      && Control(cfg, later, CMD_WINS, LastAck(later.acks)) in Flush(Ring32, cfg, later, current).wires
      && !Flush(Ring32, cfg, later, current).k.probe.tell
  {
    hide Control, Flush, PeekSize, Drain, Apply;
    var k' := Recv(Ring32, cfg, k, len).0;
    OtherCallsOnlyTell(cfg, k', calls);
    PendingIsTold(cfg, AfterFrom(cfg, k', calls), current);
  }
}
