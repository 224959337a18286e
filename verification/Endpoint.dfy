/**
 Every state one end can reach: any sequence of calls, any bytes from the
 network.
 */
module Endpoint {
  import opened SerialArith
  import opened Receiver
  import opened Sender
  import opened Codec
  import opened Engine
  import opened EngineInvariant
  import opened Congestion
  import opened Timers

  datatype Call =
    | CallWrite(alwaysStream: bool, data: seq<byte>)
    | CallFlush(current: u32)
    | CallFlushAck
    | CallInput(bytes: seq<byte>)
    | CallRecv(len: int)

  function Apply(cfg: Config, k: Kcb, call: Call): Kcb
    requires cfg.mss > 0
  {
    match call
    case CallWrite(alwaysStream, data) => Write(cfg, k, alwaysStream, data).0
    case CallFlush(current) => Flush(Ring32, cfg, k, current).k
    case CallFlushAck => k.(acks := [])
    case CallInput(bytes) => InputBytes(cfg, k, bytes).k
    case CallRecv(len) => Recv(Ring32, cfg, k, len).0
  }

  /** The state after a list of calls. */
  function AfterFrom(cfg: Config, k: Kcb, calls: seq<Call>): Kcb
    requires cfg.mss > 0
    decreases |calls|
  {
    if calls == [] then k else Apply(cfg, AfterFrom(cfg, k, calls[..|calls| - 1]), calls[|calls| - 1])
  }

  /** The state after a list of calls on a new block. */
  function After(cfg: Config, calls: seq<Call>): Kcb
    requires cfg.mss > 0
  {
    AfterFrom(cfg, Fresh(cfg), calls)
  }

  /** Each flush is told a time that is not before the previous one's. */
  predicate ClockRuns(cfg: Config, calls: seq<Call>)
    requires cfg.mss > 0
    decreases |calls|
  {
    calls == [] ||
    (var n := |calls| - 1;
     ClockRuns(cfg, calls[..n]) &&
     (calls[n].CallFlush? ==> TimeDiff(calls[n].current, After(cfg, calls[..n]).current) >= 0))
  }

  /**
   What holds in every reachable state: the queues in every configuration, the
   congestion window in every mode with segments of a reasonable size, and in
   the mode nodelay 1 the timers of a live link, when the clock does not run
   back.
   */
  ghost predicate StateOk(cfg: Config, k: Kcb, clock: bool) {
    && KcbInv(Ring32, cfg, k)
    && (CongConfig(cfg) ==> CongOk(cfg, k.cong))
    && (TimerConfig(cfg) && clock && !k.dead ==> TimersOk(cfg, k))
  }

  // ---------------------------------------------------------------------
  // Input
  // ---------------------------------------------------------------------

  /** Acknowledgements only remove segments. */
  lemma AckOnlyRemoves(s: Snd, w: Wire)
    ensures forall seg :: seg in SndAfter(Ring32, s, w).buf ==> seg in s.buf
  {
    hide Diff;
    var s1 := ParseUna(Ring32, s, w.una);
    DropBelowIsSuffix(Ring32, s.buf, w.una);
    RemoveIsCut(Ring32, s1.buf, w.sn);
  }

  lemma FewerTimers(cfg: Config, k: Kcb, k': Kcb)
    requires TimersOk(cfg, k) && RttOk(cfg, k'.rtt) && k'.current == k.current && k'.dead == k.dead
    requires forall seg :: seg in k'.snd.buf ==> seg in k.snd.buf
    ensures TimersOk(cfg, k')
  {
    hide Scheduled;
    forall i | 0 <= i < |k'.snd.buf|
      ensures Scheduled(k.current, k'.snd.buf[i])
      ensures !k.dead ==> k'.snd.buf[i].xmit < cfg.deadLink
    {
      assert k'.snd.buf[i] in k.snd.buf;
    }
  }

  lemma SegKeepsTimers(cfg: Config, k: Kcb, w: Wire)
    requires TimerConfig(cfg) && TimersOk(cfg, k)
    ensures TimersOk(cfg, InputSeg(Ring32, cfg, k, w))
  {
    hide AllScheduled, UpdateAck, I32, SndAfter, ParseData, ParseUna, ParseAck;
    InputSegSnd(Ring32, cfg, k, w);
    AckOnlyRemoves(k.snd, w);
    UpdateAckInRange(cfg, k.rtt, TimeDiff(k.current, w.ts));
    FewerTimers(cfg, k, InputSeg(Ring32, cfg, k, w));
  }

  lemma {:induction false} SkipKeepsTimers(now: int, buf: seq<SndSeg>, sn: int)
    ensures |Skip(Ring32, buf, sn)| == |buf|
    ensures AllScheduled(now, buf) ==> AllScheduled(now, Skip(Ring32, buf, sn))
    ensures forall i :: 0 <= i < |buf| ==> Skip(Ring32, buf, sn)[i].xmit == buf[i].xmit
  {
    hide Diff, I32, U32;
    if buf != [] && !(Diff(Ring32, sn, buf[0].sn) < 0) {
      SkipKeepsTimers(now, buf[1..], sn);
      var out := Skip(Ring32, buf, sn);
      forall i | 0 <= i < |buf|
        ensures out[i].xmit == buf[i].xmit
        ensures AllScheduled(now, buf) ==> Scheduled(now, out[i])
      {
        if AllScheduled(now, buf) {
          assert Scheduled(now, buf[0]);
          assert AllScheduled(now, buf[1..]);
        }
        if i > 0 {
          assert out[i] == Skip(Ring32, buf[1..], sn)[i - 1];
          assert buf[1..][i - 1] == buf[i];
        }
      }
    }
  }

  lemma EndKeepsTimers(cfg: Config, k: Kcb, m: MaxAck, prevUna: int)
    requires cfg.mss > 0 && TimersOk(cfg, k)
    ensures TimersOk(cfg, EndInput(Ring32, cfg, k, m, prevUna))
    ensures EndInput(Ring32, cfg, k, m, prevUna).dead == k.dead
  {
    hide Diff, Scheduled, Grow, Skip;
    if m.MaxAck? {
      SkipKeepsTimers(k.current, k.snd.buf, m.sn);
    }
  }

  /** Whether the congestion window grew, it did so once, bounded by the window last announced. */
  predicate GrownOnce(mss: int, before: Kcb, after: Kcb)
    requires mss > 0
  {
    after.cong == before.cong || after.cong == Grow(mss, before.cong, after.rmtWnd)
  }

  lemma {:induction false} LoopKeepsState(cfg: Config, k: Kcb, m: MaxAck, b: seq<byte>, prevUna: int)
    requires cfg.mss > 0
    ensures var k' := InputLoop(cfg, k, m, b, prevUna).k;
      && GrownOnce(cfg.mss, k, k')
      && k'.dead == k.dead
      && (TimerConfig(cfg) && TimersOk(cfg, k) ==> TimersOk(cfg, k'))
    decreases |b|
  {
    hide InputSeg, EndInput, Parse, TimersOk, NextMax, Grow, TimerConfig;
    match Parse(cfg.conv, b)
    case End =>
      EndGrowsOnce(cfg, k, m, prevUna);
      if TimersOk(cfg, k) {
        EndKeepsTimers(cfg, k, m, prevUna);
      }
    case Segment(w, rest) =>
      LoopKeepsState(cfg, InputSeg(Ring32, cfg, k, w), NextMax(Ring32, m, w), rest, prevUna);
      SegKeepsCong(cfg, k, w);
      if TimerConfig(cfg) && TimersOk(cfg, k) {
        SegKeepsTimers(cfg, k, w);
      }
    case _ =>
  }

  lemma SegKeepsCong(cfg: Config, k: Kcb, w: Wire)
    ensures InputSeg(Ring32, cfg, k, w).cong == k.cong
    ensures InputSeg(Ring32, cfg, k, w).dead == k.dead
  {
  }

  lemma EndGrowsOnce(cfg: Config, k: Kcb, m: MaxAck, prevUna: int)
    requires cfg.mss > 0
    ensures GrownOnce(cfg.mss, k, EndInput(Ring32, cfg, k, m, prevUna))
    ensures EndInput(Ring32, cfg, k, m, prevUna).dead == k.dead
  {
    hide Diff, Grow, ParseFastack;
  }

  /**
   One ikcp_input, on any bytes and in any mode: the congestion window grows by
   at most two segments and never past the peer's window.
   */
  lemma InputGrowsAtMostTwo(cfg: Config, k: Kcb, b: seq<byte>)
    requires ConfigOk(cfg) && CongConfig(cfg) && KcbInv(Ring32, cfg, k) && CongOk(cfg, k.cong)
    ensures var k' := InputBytes(cfg, k, b).k;
      && KcbInv(Ring32, cfg, k') && CongOk(cfg, k'.cong)
      && k'.cong.cwnd <= k.cong.cwnd + 2
      && (k'.cong.cwnd <= k.cong.cwnd || k'.cong.cwnd <= k'.rmtWnd)
  {
    hide KcbInv, TimersOk, InputLoop, CongOk, Grow, CongConfig;
    var k' := InputBytes(cfg, k, b).k;
    InputBytesKeepsInv(cfg, k, b);
    LoopKeepsState(cfg, k, NoAck, b, k.snd.una);
    WindowInRange(cfg, k');
    GrowKeeps(cfg, k.cong, k'.rmtWnd);
  }

  lemma InputKeepsState(cfg: Config, k: Kcb, b: seq<byte>, clock: bool)
    requires ConfigOk(cfg) && StateOk(cfg, k, clock)
    ensures StateOk(cfg, InputBytes(cfg, k, b).k, clock)
  {
    hide KcbInv, TimersOk, InputLoop, CongOk, Grow, CongConfig, TimerConfig;
    InputBytesKeepsInv(cfg, k, b);
    LoopKeepsState(cfg, k, NoAck, b, k.snd.una);
    if CongConfig(cfg) {
      InputGrowsAtMostTwo(cfg, k, b);
    }
  }

  lemma WindowInRange(cfg: Config, k: Kcb)
    requires KcbInv(Ring32, cfg, k)
    ensures 0 <= k.rmtWnd <= 65535
  {
    hide SndInv, RcvInv, Sized;
  }

  // ---------------------------------------------------------------------
  // The other calls
  // ---------------------------------------------------------------------

  lemma FlushKeepsState(cfg: Config, k: Kcb, current: u32, clock: bool)
    requires ConfigOk(cfg) && StateOk(cfg, k, clock) && (clock ==> TimeDiff(current, k.current) >= 0)
    ensures StateOk(cfg, Flush(Ring32, cfg, k, current).k, clock)
  {
    hide Flush, KcbInv, TimersOk, CongOk, I32, CongConfig, TimerConfig;
    FlushKeepsInv(Ring32, cfg, k, current);
    if CongConfig(cfg) {
      FlushKeepsCong(cfg, k, current);
    }
    if k.dead {
      DeadStaysDead(cfg, k, current);
    } else if TimerConfig(cfg) && clock {
      NxtIsNormal(cfg, k);
      FlushNeverOversleeps(Ring32, cfg, k, current);
    }
  }

  lemma NxtIsNormal(cfg: Config, k: Kcb)
    requires KcbInv(Ring32, cfg, k)
    ensures Norm(Ring32, k.snd.nxt) == k.snd.nxt
  {
    hide SegsOk, RcvInv, Sized, U32;
  }

  lemma DeadStaysDead(cfg: Config, k: Kcb, current: u32)
    requires k.dead
    ensures Flush(Ring32, cfg, k, current).k.dead
  {
  }

  lemma FlushKeepsCong(cfg: Config, k: Kcb, current: u32)
    requires ConfigOk(cfg) && CongConfig(cfg) && KcbInv(Ring32, cfg, k) && CongOk(cfg, k.cong)
    ensures CongOk(cfg, Flush(Ring32, cfg, k, current).k.cong)
  {
    hide RcvInv, Sized, SegsOk, CongOk, AfterLoss, CountKind, Filled, SweepAll, AckWires, ProbeWires, PushWires, NextProbe, NextDeadline, AnyExhausted;
    var s := Filled(Ring32, cfg, k, current);
    FilledOk(Ring32, cfg, k, current);
    SendWindowOk(cfg, k);
    InflightInRange(s);
    AfterLossKeeps(cfg, k.cong, Norm(Ring32, s.nxt - s.una), SendWindow(cfg, k),
                   CountKind(cfg, current, s.buf, Fast) > 0, CountKind(cfg, current, s.buf, Timeout) > 0);
  }

  lemma InflightInRange(s: Snd)
    requires 0 <= Diff(Ring32, s.nxt, s.una) <= MAX_WND
    ensures 0 <= Norm(Ring32, s.nxt - s.una) <= MAX_WND
  {
  }

  lemma OtherCallsKeepState(cfg: Config, k: Kcb, alwaysStream: bool, data: seq<byte>, len: int, clock: bool)
    requires ConfigOk(cfg) && StateOk(cfg, k, clock)
    ensures StateOk(cfg, Write(cfg, k, alwaysStream, data).0, clock)
    ensures StateOk(cfg, Recv(Ring32, cfg, k, len).0, clock)
    ensures StateOk(cfg, k.(acks := []), clock)
  {
    hide SndInv, RcvInv, Sized, CongOk, Scheduled, Fragments.Enqueue, RecvFront, CongConfig, TimerConfig;
    WriteKeepsInv(Ring32, cfg, k, alwaysStream, data);
    RecvKeepsInv(Ring32, cfg, k, len);
  }

  lemma FreshState(cfg: Config)
    requires ConfigOk(cfg)
    ensures StateOk(cfg, Fresh(cfg), true)
  {
    FreshInv(Ring32, cfg);
    InitialExactly(cfg);
  }

  lemma ApplyKeepsState(cfg: Config, k: Kcb, call: Call, clock: bool)
    requires ConfigOk(cfg) && StateOk(cfg, k, clock)
    requires clock && call.CallFlush? ==> TimeDiff(call.current, k.current) >= 0
    ensures StateOk(cfg, Apply(cfg, k, call), clock)
  {
    hide StateOk, InputBytes, Flush, Write, Recv, I32;
    match call
    case CallWrite(alwaysStream, data) => OtherCallsKeepState(cfg, k, alwaysStream, data, 0, clock);
    case CallFlush(current) => FlushKeepsState(cfg, k, current, clock);
    case CallFlushAck => OtherCallsKeepState(cfg, k, false, [], 0, clock);
    case CallInput(bytes) => InputKeepsState(cfg, k, bytes, clock);
    case CallRecv(len) => OtherCallsKeepState(cfg, k, false, [], len, clock);
  }

  /** Without a clock that runs, less is claimed. */
  lemma ClockForgotten(cfg: Config, k: Kcb, clock: bool)
    requires StateOk(cfg, k, clock)
    ensures StateOk(cfg, k, false)
  {
    hide KcbInv, CongOk, CongConfig, TimerConfig, TimersOk;
  }

  /**
   After any calls in any order, with any bytes as input: the queues are
   ordered and bounded; in either mode the congestion window tracks its byte
   count; and with nodelay 1 and a clock that does not run back every timer of
   a live link is in range.
   */
  lemma {:induction false} EveryStateOk(cfg: Config, calls: seq<Call>)
    requires ConfigOk(cfg)
    ensures KcbInv(Ring32, cfg, After(cfg, calls))
    ensures CongConfig(cfg) ==> CongOk(cfg, After(cfg, calls).cong)
    ensures TimerConfig(cfg) && ClockRuns(cfg, calls) && !After(cfg, calls).dead ==> TimersOk(cfg, After(cfg, calls))
    ensures StateOk(cfg, After(cfg, calls), ClockRuns(cfg, calls))
    decreases |calls|
  {
    hide Apply, I32, KcbInv, CongOk, CongConfig, TimerConfig, TimersOk;
    if calls == [] {
      FreshState(cfg);
    } else {
      var n := |calls| - 1;
      EveryStateOk(cfg, calls[..n]);
      ClockForgotten(cfg, After(cfg, calls[..n]), ClockRuns(cfg, calls[..n]));
      ApplyKeepsState(cfg, After(cfg, calls[..n]), calls[n], ClockRuns(cfg, calls));
    }
  }
}
