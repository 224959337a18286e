/**
 What a session's write puts on the wire: it offers all the window has room
 for, and what fits goes out at once.
 */
module Writing {
  import opened SerialArith
  import opened Receiver
  import opened Sender
  import opened Codec
  import opened Fragments
  import opened Engine
  import opened EngineInvariant
  import opened Endpoint
  import opened Connection
  import opened FlowControl
  import opened Resending
  import opened SessionSteps
  import Acknowledged
  import Congestion

  /** The room the two windows leave beside the backlog. */
  function Room(cfg: Config, k: Kcb): int {
    Min(cfg.sndWnd, k.rmtWnd) - WaitSnd(k)
  }

  lemma OfferIs(cfg: Config, k: Kcb, len: nat)
    requires ConfigOk(cfg) && 0 <= k.rmtWnd <= 65535 && 65535 * cfg.mss < 0x1_0000_0000
    ensures Offered(cfg, k, len) ==
      if WaitSnd(k) > cfg.sndWnd || Room(cfg, k) <= 0 then 0 else Min(Room(cfg, k) * cfg.mss, len)
  {
    hide U32;
    if Room(cfg, k) > 0 {
      Times(Room(cfg, k), 65535, cfg.mss);
      Congestion.InRange(Room(cfg, k) * cfg.mss);
    } else {
      Congestion.InRange(0 * cfg.mss);
    }
  }

  lemma Times(a: int, b: int, m: int)
    requires 0 <= a <= b && 0 <= m
    ensures 0 <= a * m <= b * m
  {
  }

  /**
   A write offers exactly what there is room for: all of it, or as many whole
   segments as the smaller window has left beside the backlog, or nothing
   while more than a window is waiting.
   */
  lemma OfferFillsRoom(cfg: Config, k: Kcb, len: nat)
    requires ConfigOk(cfg) && 0 <= k.rmtWnd <= 65535 && 65535 * cfg.mss < 0x1_0000_0000
    ensures var n := Offered(cfg, k, len);
      && (n == len || n == Max(Room(cfg, k), 0) * cfg.mss || (n == 0 && WaitSnd(k) > cfg.sndWnd))
      && (Room(cfg, k) > 0 ==> n == len || n == Room(cfg, k) * cfg.mss)
  {
    hide Offered;
    OfferIs(cfg, k, len);
    Positive(Room(cfg, k), cfg.mss);
  }

  lemma Positive(a: int, m: int)
    ensures Max(a, 0) * m == if a > 0 then a * m else 0
  {
  }

  /** A message that fits beside the backlog in every window, the congestion window too. */
  predicate FitsAtOnce(p: Peer, data: seq<byte>)
    requires p.cfg.mss > 0
  {
    && data != [] && |data| < 0x8000_0000
    && (p.cfg.stream || |data| <= 127 * p.cfg.mss)
    && NumbersOut(Ring32, p.k.snd) + |p.k.snd.que| + CountOf(p.cfg.mss, |data|) <= Narrowest(p.cfg, p.k)
  }

  lemma NoMoreThanOut(s: Snd, wnd: int)
    requires SndInv(Ring32, wnd, s)
    ensures |s.buf| <= NumbersOut(Ring32, s)
  {
    hide Diff, Norm, Shrink;
    Acknowledged.BufFits(s.una, Diff(Ring32, s.nxt, s.una), s.buf);
  }

  lemma CountCovers(mss: int, len: nat)
    requires mss > 0
    ensures len <= CountOf(mss, len) * mss
  {
    if len > mss {
      var q := (len + mss - 1) / mss;
      assert len + mss - 1 == q * mss + (len + mss - 1) % mss;
    }
  }

  /** All of such a message is offered and accepted, and the session flushes. */
  lemma FittingIsSent(p: Peer, data: seq<byte>)
    requires ConfigOk(p.cfg) && KcbInv(Ring32, p.cfg, p.k) && 65535 * p.cfg.mss < 0x1_0000_0000 && FitsAtOnce(p, data)
    ensures SentOf(p, data) == |data| == Offered(p.cfg, p.k, |data|) && FlushesAtOnce(p, data)
  {
    hide KcbInv, Diff, CountOf, U32, CallRet, Offered;
    var cfg, k := p.cfg, p.k;
    KcbGives(cfg, k);
    CountCovers(cfg.mss, |data|);
    CountPositive(cfg.mss, |data|);
    Times(CountOf(cfg.mss, |data|), Room(cfg, k), cfg.mss);
    OfferIs(cfg, k, |data|);
    assert data[..|data|] == data;
    OfferedIsAcceptedExactly(cfg, k, data);
    var segs := AvailableSegs(cfg, k, true);
    Times(1, segs, cfg.mss);
    Times(segs, 65535, cfg.mss);
    Congestion.InRange(segs * cfg.mss);
  }

  lemma KcbGives(cfg: Config, k: Kcb)
    requires ConfigOk(cfg) && KcbInv(Ring32, cfg, k)
    ensures 0 <= k.rmtWnd <= 65535 && WaitSnd(k) <= NumbersOut(Ring32, k.snd) + |k.snd.que|
    ensures SendWindow(cfg, k) == Narrowest(cfg, k)
  {
    hide RcvInv, Sized, SndInv, NumbersOut;
    NoMoreThanOut(k.snd, EngineInvariant.Window(cfg));
  }

  /**
   A message that fits in every window is on the wire when the write returns:
   nothing is left in snd_queue, and every segment numbered by the write is
   among those sent.
   */
  lemma WriteGoesOut(p: Peer, data: seq<byte>, now: u32)
    requires ConfigOk(p.cfg) && KcbInv(Ring32, p.cfg, p.k) && 65535 * p.cfg.mss < 0x1_0000_0000 && FitsAtOnce(p, data)
    requires 0 <= p.k.rtt.rto <= RTO_MAX
    ensures var (q, out) := WritePeer(p, data, now);
      && q.k.snd.que == [] && q.written == p.written + data
      && |q.k.snd.buf| > |p.k.snd.buf|
      && forall i :: |p.k.snd.buf| <= i < |q.k.snd.buf| ==> Sends(Flatten(out), q.k.snd.buf[i].sn)
  {
    hide KcbInv, CountOf, CallRet, Offered, Flush, FlushesAtOnce, Sends, Pack, AllFit, Filled, Diff;
    FittingIsSent(p, data);
    SendPeerTells(p, data, now);
    assert data[..|data|] == data;
    Written(p, data);
    var p1 := CallOp(p, false, data);
    FlushFillsWindow(Ring32, p.cfg, p1.k, now);
    var k2 := Flush(Ring32, p.cfg, p1.k, now).k;
    FlushKeepsBacklog(p1, now);
    forall i | |p.k.snd.buf| <= i < |k2.snd.buf|
      ensures Sends(Flush(Ring32, p.cfg, p1.k, now).wires, k2.snd.buf[i].sn)
    {
      NewIsSent(p.cfg, p1.k, now, i);
    }
    OnTheWire(p1, now);
    SendIsFlush(p, data, now);
  }

  /** While the backlog fills the narrowest window, the congestion window too, a write only queues. */
  lemma WriteWaits(p: Peer, data: seq<byte>, now: u32)
    requires ConfigOk(p.cfg) && KcbInv(Ring32, p.cfg, p.k) && WaitSnd(p.k) >= Narrowest(p.cfg, p.k)
    ensures var (q, out) := WritePeer(p, data, now);
      out == [] && q.k.snd.buf == p.k.snd.buf && q.k.snd.nxt == p.k.snd.nxt && q.k.probe == p.k.probe
  {
    hide KcbInv, Flush, Offered, Enqueue, I32;
    KcbGives(p.cfg, p.k);
    NothingFree(p.cfg, p.k);
    SendPeerTells(p, data, now);
  }

  lemma NothingFree(cfg: Config, k: Kcb)
    requires SendWindow(cfg, k) <= WaitSnd(k)
    ensures AvailableBytes(cfg, k, true) == 0
  {
    assert 0 * cfg.mss == 0;
  }

  /** The write leaves everything but the queue as it was, and the queue no longer than the windows allow. */
  lemma Written(p: Peer, data: seq<byte>)
    requires ConfigOk(p.cfg) && KcbInv(Ring32, p.cfg, p.k) && FitsAtOnce(p, data)
    requires Accepts(p.cfg, p.k, data)
    ensures var p1 := CallOp(p, false, data);
      && p1.cfg == p.cfg && KcbInv(Ring32, p.cfg, p1.k)
      && p1.k.snd.buf == p.k.snd.buf && p1.k.snd.nxt == p.k.snd.nxt && p1.k.snd.una == p.k.snd.una
      && p1.k.rmtWnd == p.k.rmtWnd && p1.k.cong == p.k.cong && p1.k.rtt == p.k.rtt
      && 0 < |p1.k.snd.que| <= |p.k.snd.que| + CountOf(p.cfg.mss, |data|)
  {
    hide KcbInv, CountOf, Enqueue;
    assert data[..|data|] == data;
    WriteKeepsInv(Ring32, p.cfg, p.k, false, data);
    WriteGrowsBy(p.cfg.mss, p.cfg.stream, p.k.snd.que, data);
    QueueNotEmpty(p.cfg.mss, p.cfg.stream, p.k.snd.que, data);
  }

  lemma QueueNotEmpty(mss: int, stream: bool, que: seq<Frag>, data: seq<byte>)
    requires mss > 0 && data != [] && Enqueue(mss, stream, que, data).ret == 0
    ensures Enqueue(mss, stream, que, data).que != []
  {
    hide CutStream, Cut;
    CutCount(mss, data);
    CountPositive(mss, |data|);
    if stream {
      StreamCount(mss, data[Min(|data|, Spare(mss, que))..]);
    }
  }

  lemma OnTheWire(p: Peer, now: u32)
    requires ConfigOk(p.cfg) && KcbInv(Ring32, p.cfg, p.k)
    ensures var out := FlushOp(Ring32, p, now).1; Flatten(out) == Flush(Ring32, p.cfg, p.k, now).wires
  {
    hide KcbInv, Flush, Pack, AllFit;
    FilledOk(Ring32, p.cfg, p.k, now);
    FlushFits(Ring32, p.cfg, p.k, now);
    var ws := Flush(Ring32, p.cfg, p.k, now).wires;
    Needs(p.cfg, ws);
    PackSpec(p.cfg.mtu - p.cfg.headRoom, ws);
  }

  lemma Needs(cfg: Config, ws: seq<Wire>)
    requires AllFit(cfg, ws)
    ensures forall i :: 0 <= i < |ws| ==> Need(ws[i]) <= cfg.mtu - cfg.headRoom
  {
  }

  lemma SendIsFlush(p: Peer, data: seq<byte>, now: u32)
    requires p.cfg.mss > 0 && SentOf(p, data) == |data| == Offered(p.cfg, p.k, |data|) && FlushesAtOnce(p, data)
    ensures WritePeer(p, data, now) == FlushOp(Ring32, CallOp(p, false, data), now)
  {
    hide Offered, CallOp, CallRet, Flush, FlushesAtOnce, AvailableBytes;
    SendPeerTells(p, data, now);
    SomethingSent(p, data);
    assert data[..|data|] == data;
  }

  lemma SomethingSent(p: Peer, data: seq<byte>)
    requires p.cfg.mss > 0 && FlushesAtOnce(p, data)
    ensures SentOf(p, data) > 0
  {
  }

  /**
   The first flush of a new end: without congestion control it numbers what its
   window and 128 leave room for, with it a single fragment; and whatever it
   numbers is sent, with a time-out of 200 ms.
   */
  lemma FirstFlight(cfg: Config, data: seq<byte>, now: u32)
    requires ConfigOk(cfg) && data != [] && |data| <= 127 * cfg.mss
    ensures var k := Write(cfg, Fresh(cfg), true, data).0;
      var f := Flush(Ring32, cfg, k, now);
      && |f.k.snd.buf| == Min(CountOf(cfg.mss, |data|), if cfg.noCwnd then Min(cfg.sndWnd, 128) else 1)
      && forall i :: 0 <= i < |f.k.snd.buf| ==>
           Sends(f.wires, f.k.snd.buf[i].sn) && f.k.snd.buf[i].rto == 200 && f.k.snd.buf[i].xmit == 1
  {
    hide KcbInv, Flush, Sends, CountOf, CutStream, NumbersOut;
    var k := Write(cfg, Fresh(cfg), true, data).0;
    FreshInv(Ring32, cfg);
    WriteKeepsInv(Ring32, cfg, Fresh(cfg), true, data);
    StreamCount(cfg.mss, data);
    EmptySpare(cfg.mss, data);
    FlushFillsWindow(Ring32, cfg, k, now);
    FlushKeepsBacklog(NewPeer(cfg).(k := k), now);
    NoneOut(k.snd);
    forall i | 0 <= i < |Flush(Ring32, cfg, k, now).k.snd.buf|
      ensures var f := Flush(Ring32, cfg, k, now);
        Sends(f.wires, f.k.snd.buf[i].sn) && f.k.snd.buf[i].rto == 200 && f.k.snd.buf[i].xmit == 1
    {
      NewIsSent(cfg, k, now, i);
    }
  }

  lemma NoneOut(s: Snd)
    requires s.nxt == s.una
    ensures NumbersOut(Ring32, s) == 0
  {
  }

  lemma EmptySpare(mss: int, data: seq<byte>)
    requires mss > 0 && data != []
    ensures Enqueue(mss, true, [], data).que == CutStream(mss, data)
  {
    hide CutStream, Cut, CountOf;
    assert data[0..] == data;
  }
}
