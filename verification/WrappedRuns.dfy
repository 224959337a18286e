/**
 Runs of the 32-bit engine are wrapped runs of the unbounded one, so what holds
 of every unbounded run holds of the real one.
 */
module WrappedRuns {
  import opened SerialArith
  import opened Receiver
  import opened Sender
  import opened Codec
  import opened Fragments
  import opened Engine
  import opened EngineInvariant
  import opened Reassembly
  import opened Retention
  import opened Connection
  import opened Wraparound

  /**
   How many sequence numbers old a datagram may be when it arrives: a little
   less than half the 32-bit range, which leaves room for both windows.
   */
  const MAX_AGE: int := 0x7ff0_0000

  /** What a segment says is recent, for a receiver that has numbered mine and whose peer has numbered theirs. */
  predicate Recent(mine: int, theirs: int, w: Wire) {
    && mine - MAX_AGE <= w.una
    && (w.cmd == CMD_ACK ==> mine - MAX_AGE <= w.sn)
    && (w.cmd == CMD_PUSH ==> theirs - MAX_AGE <= w.sn)
  }

  /** No datagram is delivered after MAX_AGE newer numbers have been used. */
  predicate Timely(n: Net, act: Action) {
    act.InputAt? && act.i < |SentBy(n, Other(act.side))| ==>
      var ws := SentBy(n, Other(act.side))[act.i];
      forall j :: 0 <= j < |ws| ==> Recent(|PeerAt(n, act.side).log|, |PeerAt(n, Other(act.side)).log|, ws[j])
  }

  predicate TimelyRun(n: Net, acts: seq<Action>)
    requires Usable(n)
    decreases |acts|
  {
    acts == [] || (Timely(n, acts[0]) && TimelyRun(Step(Wide, n, acts[0]), acts[1..]))
  }

  function WrapPeer(p: Peer): Peer {
    p.(k := WrapKcb(p.k))
  }

  function WrapGram(ws: seq<Wire>): seq<Wire> {
    Map(WrapWire, ws)
  }

  function WrapNet(n: Net): Net {
    Net(WrapPeer(n.a), WrapPeer(n.b), Map(WrapGram, n.fromA), Map(WrapGram, n.fromB))
  }

  // ---------------------------------------------------------------------
  // Where the numbers are
  // ---------------------------------------------------------------------

  /** A sender's oldest number is at most a window behind its newest. */
  predicate SndNear(k: Kcb) {
    k.snd.nxt - MAX_WND <= k.snd.una <= k.snd.nxt
  }

  lemma SenderNear(cfg: Config, k: Kcb)
    requires ConfigOk(cfg) && KcbInv(Wide, cfg, k)
    ensures SndNear(k)
    ensures forall i :: 0 <= i < |k.snd.buf| ==> k.snd.una <= k.snd.buf[i].sn < k.snd.nxt
  {
  }

  /** The receiver is at most two windows behind its peer's newest number. */
  lemma ReceiverNear(s: Peer, t: Peer, fwd: seq<seq<Wire>>, bwd: seq<seq<Wire>>)
    requires PeerInv(s) && PeerInv(t) && Link(s, t, fwd, bwd)
    ensures |s.log| - 2 * MAX_WND <= t.k.rcv.nxt <= |s.log| == s.k.snd.nxt
  {
    hide FwdOk, BwdOk, AcksOk, TxHistory, AllLogged, AllGenuine, QueOk;
    SenderNear(s.cfg, s.k);
    NotHeldBeyond(t.cfg.rcvWnd, t.k.rcv);
  }

  lemma NotHeldBeyond(wnd: int, k: Rcv)
    requires WndOk(wnd) && RcvInv(Wide, wnd, k)
    ensures !Held(k, k.nxt + wnd)
  {
  }

  // ---------------------------------------------------------------------
  // One segment
  // ---------------------------------------------------------------------

  /** The segment is neither too old for this block nor ahead of what exists. */
  predicate SegClose(cfg: Config, k: Kcb, w: Wire) {
    && Close(w.una, k.snd.una) && Close(w.una, k.snd.nxt)
    && (w.cmd == CMD_ACK ==> Close(w.sn, k.snd.una) && Close(w.sn, k.snd.nxt))
    && (w.cmd == CMD_PUSH ==> Close(w.sn, k.rcv.nxt + cfg.rcvWnd))
  }

  lemma CloseBetween(x: int, una: int, nxt: int, buf: seq<SndSeg>)
    requires Close(x, una) && Close(x, nxt)
    requires forall i :: 0 <= i < |buf| ==> una <= buf[i].sn < nxt
    ensures CloseToAll(x, buf)
  {
  }

  lemma SndAfterWraps(cfg: Config, k: Kcb, w: Wire)
    requires ConfigOk(cfg) && KcbInv(Wide, cfg, k) && SegClose(cfg, k, w)
    ensures SndAfter(Ring32, WrapSnd(k.snd), WrapWire(w)) == WrapSnd(SndAfter(Wide, k.snd, w))
  {
    hide U32, ParseUna, ParseAck, WrapSnd, RcvInv, Sized, SegsOk;
    SenderNear(cfg, k);
    CloseBetween(w.una, k.snd.una, k.snd.nxt, k.snd.buf);
    ParseUnaWraps(k.snd, w.una);
    if w.cmd == CMD_ACK {
      AckCloseAfterUna(cfg, k, w);
      ParseAckWraps(ParseUna(Wide, k.snd, w.una), w.sn);
    }
  }

  lemma AckCloseAfterUna(cfg: Config, k: Kcb, w: Wire)
    requires ConfigOk(cfg) && KcbInv(Wide, cfg, k) && Close(w.sn, k.snd.una) && Close(w.sn, k.snd.nxt)
    ensures var s := ParseUna(Wide, k.snd, w.una);
      Close(w.sn, s.una) && Close(w.sn, s.nxt) && CloseToAll(w.sn, s.buf)
  {
    var s := ParseUna(Wide, k.snd, w.una);
    ParseUnaKeepsInv(Wide, Window(cfg), k.snd, w.una);
    ParseUnaSized(Wide, cfg.mss, k.snd, w.una);
    SenderNear(cfg, k.(snd := s));
    CloseBetween(w.sn, s.una, s.nxt, s.buf);
  }

  lemma RcvAfterWraps(cfg: Config, k: Kcb, w: Wire)
    requires ConfigOk(cfg) && KcbInv(Wide, cfg, k) && SegClose(cfg, k, w) && w.cmd == CMD_PUSH
    ensures ParseData(Ring32, cfg.rcvWnd, WrapRcv(k.rcv), RcvSeg(U32(w.sn), w.frg, w.data))
         == WrapRcv(ParseData(Wide, cfg.rcvWnd, k.rcv, RcvSeg(w.sn, w.frg, w.data)))
    ensures (Diff(Ring32, U32(w.sn), Norm(Ring32, U32(k.rcv.nxt) + cfg.rcvWnd)) < 0)
         == (Diff(Wide, w.sn, Norm(Wide, k.rcv.nxt + cfg.rcvWnd)) < 0)
  {
    ParseDataWraps(cfg.rcvWnd, k.rcv, RcvSeg(w.sn, w.frg, w.data));
    WrapDiff(w.sn, k.rcv.nxt + cfg.rcvWnd);
    NormAdd(Ring32, k.rcv.nxt, cfg.rcvWnd);
  }

  /** One segment of ikcp_input is handled alike on both rings. */
  lemma InputSegWraps(cfg: Config, k: Kcb, w: Wire)
    requires ConfigOk(cfg) && KcbInv(Wide, cfg, k) && SegClose(cfg, k, w)
    ensures InputSeg(Ring32, cfg, WrapKcb(k), WrapWire(w)) == WrapKcb(InputSeg(Wide, cfg, k, w))
  {
    hide U32, I32, SndAfter, ParseUna, ParseAck, ParseData, WrapSnd, WrapSegs, KcbInv, UpdateAck, Close;
    InputSegSnd(Ring32, cfg, WrapKcb(k), WrapWire(w));
    InputSegSnd(Wide, cfg, k, w);
    SndAfterWraps(cfg, k, w);
    if w.cmd == CMD_PUSH {
      RcvAfterWraps(cfg, k, w);
      MapConcat(WrapAck, k.acks, [Ack(w.sn, w.ts)]);
      MapOne(WrapAck, Ack(w.sn, w.ts));
    }
  }

  // ---------------------------------------------------------------------
  // One datagram
  // ---------------------------------------------------------------------

  /** What a true and recent segment says is close to everything it is compared with. */
  lemma RecentIsClose(x: Peer, y: Peer, fromX: seq<seq<Wire>>, fromY: seq<seq<Wire>>, w: Wire)
    requires Pair(x, y, fromX, fromY) && Recent(|x.log|, |y.log|, w)
    requires PushOk(y.log, w) && AckOk(|x.log|, y.k.rcv, w)
    ensures SegClose(x.cfg, x.k, w)
  {
    hide TxInv, RxInv, KcbInv, Retained, FwdOk, BwdOk, AcksOk, WindowsOk, Held;
    SenderNear(x.cfg, x.k);
    ReceiverNear(x, y, fromX, fromY);
    ReceiverNear(y, x, fromY, fromX);
  }

  /** The largest acknowledged number so far is one the sender has used, and recent. */
  predicate MaxNear(mine: int, m: MaxAck) {
    m.MaxAck? ==> mine - MAX_AGE <= m.sn < mine
  }

  lemma NextMaxWraps(mine: int, m: MaxAck, w: Wire)
    requires MaxNear(mine, m) && (w.cmd == CMD_ACK ==> mine - MAX_AGE <= w.sn < mine)
    ensures NextMax(Ring32, WrapMax(m), WrapWire(w)) == WrapMax(NextMax(Wide, m, w))
    ensures MaxNear(mine, NextMax(Wide, m, w))
  {
    hide U32, I32;
    if m.MaxAck? && w.cmd == CMD_ACK {
      WrapDiff(w.sn, m.sn);
    }
  }

  /** Everything about one datagram from y that input at x relies on. */
  ghost predicate GramOk(x: Peer, y: Peer, ws: seq<Wire>) {
    forall i :: 0 <= i < |ws| ==>
      PushOk(y.log, ws[i]) && AckOk(|x.log|, y.k.rcv, ws[i]) && InRing(Wide, ws[i]) && Recent(|x.log|, |y.log|, ws[i])
  }

  lemma {:induction false} InputSegsWrap(x: Peer, y: Peer, fromX: seq<seq<Wire>>, fromY: seq<seq<Wire>>,
                                         m: MaxAck, ws: seq<Wire>)
    requires Pair(x, y, fromX, fromY) && GramOk(x, y, ws) && MaxNear(|x.log|, m)
    ensures var (k', m') := InputSegs(Wide, x.cfg, x.k, m, ws);
      && InputSegs(Ring32, x.cfg, WrapKcb(x.k), WrapMax(m), WrapGram(ws)) == (WrapKcb(k'), WrapMax(m'))
      && MaxNear(|x.log|, m')
    decreases |ws|
  {
    hide KcbInv, Link, InputSeg, NextMax, PushOk, InRing, Recent, WrapKcb, WrapWire, WrapMax, MaxNear, WindowsOk, SegClose, Held;
    if ws != [] {
      var w := ws[0];
      RecentIsClose(x, y, fromX, fromY, w);
      InputSegWraps(x.cfg, x.k, w);
      AckIsNear(|x.log|, |y.log|, y.k.rcv, w);
      NextMaxWraps(|x.log|, m, w);
      SegKeepsPair(x, y, fromX, fromY, w);
      MapTail(WrapWire, ws, 1);
      InputSegsWrap(x.(k := InputSeg(Wide, x.cfg, x.k, w)), y, fromX, fromY, NextMax(Wide, m, w), ws[1..]);
    }
  }

  lemma AckIsNear(mine: int, theirs: int, rcv: Rcv, w: Wire)
    requires AckOk(mine, rcv, w) && Recent(mine, theirs, w)
    ensures w.cmd == CMD_ACK ==> mine - MAX_AGE <= w.sn < mine
  {
  }

  lemma EndInputWraps(cfg: Config, k: Kcb, m: MaxAck, prevUna: int)
    requires ConfigOk(cfg) && KcbInv(Wide, cfg, k) && MaxNear(k.snd.nxt, m)
    requires k.snd.nxt - MAX_WND <= prevUna <= k.snd.nxt
    ensures EndInput(Ring32, cfg, WrapKcb(k), WrapMax(m), U32(prevUna)) == WrapKcb(EndInput(Wide, cfg, k, m, prevUna))
  {
    hide U32, I32, ParseFastack, WrapBuf, WrapSegs, Grow, Sized, RcvInv, SegsOk;
    SenderNear(cfg, k);
    if m.MaxAck? {
      CloseBetween(m.sn, k.snd.una, k.snd.nxt, k.snd.buf);
      ParseFastackWraps(k.snd, m.sn);
      ParseFastackKeepsInv(Wide, Window(cfg), k.snd, m.sn);
      assert ParseFastack(Wide, k.snd, m.sn).una == k.snd.una by { FastackKeepsUna(k.snd, m.sn); }
    }
    WrapDiff(k.snd.una, prevUna);
  }

  lemma FastackKeepsUna(s: Snd, sn: int)
    ensures ParseFastack(Wide, s, sn).una == s.una
  {
  }

  lemma InputOpWraps(x: Peer, y: Peer, fromX: seq<seq<Wire>>, fromY: seq<seq<Wire>>, ws: seq<Wire>)
    requires Pair(x, y, fromX, fromY) && GramOk(x, y, ws)
    ensures InputOp(Ring32, WrapPeer(x), WrapGram(ws)) == WrapPeer(InputOp(Wide, x, ws))
  {
    hide Link, KcbInv, InputSegs, EndInput, WrapKcb, WindowsOk, WrapGram, PushOk, AckOk, InRing, Recent;
    var (k', m) := InputSegs(Wide, x.cfg, x.k, NoAck, ws);
    InputSegsWrap(x, y, fromX, fromY, NoAck, ws);
    SegsKeepPair(x, y, fromX, fromY, NoAck, ws);
    SegsKeepNxt(Wide, x.cfg, x.k, NoAck, ws);
    assert |x.log| == x.k.snd.nxt by { LogIsNxt(x, y, fromX, fromY); }
    SenderNear(x.cfg, x.k);
    EndInputWraps(x.cfg, k', m, x.k.snd.una);
    assert WrapKcb(x.k).snd.una == U32(x.k.snd.una) by { WrapUna(x.k); }
  }

  lemma WrapUna(k: Kcb)
    ensures WrapKcb(k).snd.una == U32(k.snd.una)
  {
  }

  lemma LogIsNxt(x: Peer, y: Peer, fromX: seq<seq<Wire>>, fromY: seq<seq<Wire>>)
    requires Link(x, y, fromX, fromY)
    ensures |x.log| == x.k.snd.nxt
  {
  }

  lemma {:induction false} SegsKeepNxt(r: Ring, cfg: Config, k: Kcb, m: MaxAck, ws: seq<Wire>)
    ensures InputSegs(r, cfg, k, m, ws).0.snd.nxt == k.snd.nxt
    decreases |ws|
  {
    hide InputSeg, NextMax, SndAfter;
    if ws != [] {
      InputSegSnd(r, cfg, k, ws[0]);
      assert SndAfter(r, k.snd, ws[0]).nxt == k.snd.nxt by { SndAfterNxt(r, k.snd, ws[0]); }
      SegsKeepNxt(r, cfg, InputSeg(r, cfg, k, ws[0]), NextMax(r, m, ws[0]), ws[1..]);
    }
  }

  lemma SndAfterNxt(r: Ring, s: Snd, w: Wire)
    ensures SndAfter(r, s, w).nxt == s.nxt
  {
  }

  // ---------------------------------------------------------------------
  // Flush
  // ---------------------------------------------------------------------

  lemma {:induction false} SweepAllWraps(cfg: Config, current: int, rto: int, buf: seq<SndSeg>)
    ensures SweepAll(cfg, current, rto, WrapBuf(buf)) == WrapBuf(SweepAll(cfg, current, rto, buf))
  {
    var a, b := SweepAll(cfg, current, rto, WrapBuf(buf)), WrapBuf(SweepAll(cfg, current, rto, buf));
    forall i | 0 <= i < |buf|
      ensures a[i] == b[i]
    {
      SweepWraps(cfg, current, rto, buf[i]);
    }
  }

  lemma KindWraps(cfg: Config, current: int, seg: SndSeg)
    ensures KindOf(cfg, current, WrapSndSeg(seg)) == KindOf(cfg, current, seg)
  {
  }

  lemma SweepWraps(cfg: Config, current: int, rto: int, seg: SndSeg)
    ensures Sweep(cfg, current, rto, WrapSndSeg(seg)) == WrapSndSeg(Sweep(cfg, current, rto, seg))
  {
    hide KindOf, BackOff, U32;
    KindWraps(cfg, current, seg);
  }

  lemma {:induction false} CountKindWraps(cfg: Config, current: int, buf: seq<SndSeg>, kind: Kind)
    ensures CountKind(cfg, current, WrapBuf(buf), kind) == CountKind(cfg, current, buf, kind)
  {
    hide KindOf, U32;
    if buf != [] {
      KindWraps(cfg, current, buf[0]);
      MapTail(WrapSndSeg, buf, 1);
      CountKindWraps(cfg, current, buf[1..], kind);
    }
  }

  lemma ExhaustedWraps(cfg: Config, current: int, buf: seq<SndSeg>)
    ensures AnyExhausted(cfg, current, WrapBuf(buf)) == AnyExhausted(cfg, current, buf)
  {
    hide KindOf;
    forall i | 0 <= i < |buf|
      ensures Exhausted(cfg, current, WrapBuf(buf)[i]) == Exhausted(cfg, current, buf[i])
    {
      KindWraps(cfg, current, buf[i]);
    }
  }

  lemma {:induction false} DeadlineWraps(current: int, buf: seq<SndSeg>, wait: int)
    ensures NextDeadline(current, WrapBuf(buf), wait) == NextDeadline(current, buf, wait)
    decreases |buf|
  {
    hide I32, U32;
    if buf != [] {
      var d := TimeDiff(buf[0].resendts, current);
      MapTail(WrapSndSeg, buf, 1);
      DeadlineWraps(current, buf[1..], if 0 < d < wait then d else wait);
    }
  }

  lemma WndUnusedWraps(cfg: Config, k: Kcb)
    ensures WndUnused(cfg, WrapKcb(k)) == WndUnused(cfg, k)
  {
  }

  lemma ControlWraps(cfg: Config, k: Kcb, cmd: int, a: Ack)
    ensures Control(cfg, WrapKcb(k), cmd, WrapAck(a)) == WrapWire(Control(cfg, k, cmd, a))
  {
    WndUnusedWraps(cfg, k);
    hide U32, WndUnused;
  }

  lemma AckWiresWrap(cfg: Config, k: Kcb)
    ensures AckWires(cfg, WrapKcb(k), WrapKcb(k).acks) == WrapGram(AckWires(cfg, k, k.acks))
  {
    hide Control, WrapWire;
    var a, b := AckWires(cfg, WrapKcb(k), WrapKcb(k).acks), WrapGram(AckWires(cfg, k, k.acks));
    forall i | 0 <= i < |k.acks|
      ensures a[i] == b[i]
    {
      ControlWraps(cfg, k, CMD_ACK, k.acks[i]);
    }
  }

  lemma ProbeWiresWrap(cfg: Config, k: Kcb, p: Probe)
    ensures ProbeWires(cfg, WrapKcb(k), p) == WrapGram(ProbeWires(cfg, k, p))
  {
    hide Control, WrapWire;
    var a := LastAck(k.acks);
    assert LastAck(WrapKcb(k).acks) == WrapAck(a) by { LastAckWraps(k.acks); }
    ControlWraps(cfg, k, CMD_WASK, a);
    ControlWraps(cfg, k, CMD_WINS, a);
  }

  lemma LastAckWraps(acks: seq<Ack>)
    ensures LastAck(Map(WrapAck, acks)) == WrapAck(LastAck(acks))
  {
  }

  lemma PushWraps(cfg: Config, k: Kcb, current: int, seg: SndSeg)
    ensures Push(cfg, WrapKcb(k), current, WrapSndSeg(seg)) == WrapWire(Push(cfg, k, current, seg))
  {
    WndUnusedWraps(cfg, k);
    hide U32, WndUnused;
  }

  lemma {:induction false} PushWiresWrap(cfg: Config, k: Kcb, current: int, buf: seq<SndSeg>)
    ensures PushWires(cfg, WrapKcb(k), current, WrapBuf(buf)) == WrapGram(PushWires(cfg, k, current, buf))
  {
    hide KindOf, Push, WrapKcb, WrapWire, WrapSndSeg;
    if buf != [] {
      KindWraps(cfg, current, buf[0]);
      PushWraps(cfg, k, current, buf[0]);
      MapTail(WrapSndSeg, buf, 1);
      PushWiresWrap(cfg, k, current, buf[1..]);
      var head := if KindOf(cfg, current, buf[0]).Quiet? then [] else [Push(cfg, k, current, buf[0])];
      MapConcat(WrapWire, head, PushWires(cfg, k, current, buf[1..]));
    }
  }

  lemma FilledWraps(cfg: Config, k: Kcb, current: int)
    requires ConfigOk(cfg) && KcbInv(Wide, cfg, k)
    ensures Filled(Ring32, cfg, WrapKcb(k), current) == WrapSnd(Filled(Wide, cfg, k, current))
    ensures MoveCount(Ring32, WrapKcb(k).snd, SendWindow(cfg, k)) == MoveCount(Wide, k.snd, SendWindow(cfg, k))
  {
    hide Fill, MoveCount, WrapBuf, WrapSegs, U32, Sized, RcvInv;
    SendWindowOk(cfg, k);
    SenderNear(cfg, k);
    FillWraps(k.snd, SendWindow(cfg, k), current, k.rtt.rto);
  }

  lemma FlushWiresWrap(cfg: Config, k: Kcb, current: int)
    requires ConfigOk(cfg) && KcbInv(Wide, cfg, k)
    ensures Flush(Ring32, cfg, WrapKcb(k), current).wires == WrapGram(Flush(Wide, cfg, k, current).wires)
  {
    hide AckWires, ProbeWires, PushWires, WrapWire, KcbInv, WrapBuf;
    var s := Filled(Wide, cfg, k, current);
    var p := NextProbe(k.probe, k.rmtWnd, current);
    FilledWraps(cfg, k, current);
    hide Filled, NextProbe;
    AckWiresWrap(cfg, k);
    ProbeWiresWrap(cfg, k, p);
    PushWiresWrap(cfg, k, current, s.buf);
    MapConcat(WrapWire, AckWires(cfg, k, k.acks), ProbeWires(cfg, k, p));
    MapConcat(WrapWire, AckWires(cfg, k, k.acks) + ProbeWires(cfg, k, p), PushWires(cfg, k, current, s.buf));
  }

  lemma FilledNear(cfg: Config, k: Kcb, current: int)
    requires ConfigOk(cfg) && KcbInv(Wide, cfg, k)
    ensures 0 <= Filled(Wide, cfg, k, current).nxt - Filled(Wide, cfg, k, current).una <= MAX_WND
  {
    var s := Filled(Wide, cfg, k, current);
    hide Sized, RcvInv, SegsOk, Fill, SendWindow;
    FilledOk(Wide, cfg, k, current);
  }

  lemma FlushStateWraps(cfg: Config, k: Kcb, current: int)
    requires ConfigOk(cfg) && KcbInv(Wide, cfg, k)
    ensures Flush(Ring32, cfg, WrapKcb(k), current).k == WrapKcb(Flush(Wide, cfg, k, current).k)
    ensures Flush(Ring32, cfg, WrapKcb(k), current).wait == Flush(Wide, cfg, k, current).wait
  {
    hide Filled, KcbInv, AckWires, ProbeWires, PushWires, NextProbe, AnyExhausted, CountKind, SweepAll,
      NextDeadline, WrapBuf, WrapSegs, AfterLoss, U32, SendWindow;
    var s := Filled(Wide, cfg, k, current);
    FilledWraps(cfg, k, current);
    FilledNear(cfg, k, current);
    GapWraps(s.nxt, s.una);
    SweepAllWraps(cfg, current, k.rtt.rto, s.buf);
    CountKindWraps(cfg, current, s.buf, Timeout);
    CountKindWraps(cfg, current, s.buf, Fast);
    ExhaustedWraps(cfg, current, s.buf);
    DeadlineWraps(current, SweepAll(cfg, current, k.rtt.rto, s.buf), cfg.interval);
    SendWindowWraps(cfg, k);
  }

  lemma SendWindowWraps(cfg: Config, k: Kcb)
    ensures SendWindow(cfg, WrapKcb(k)) == SendWindow(cfg, k)
  {
  }

  lemma GapWraps(nxt: int, una: int)
    requires 0 <= nxt - una <= MAX_WND
    ensures Norm(Ring32, U32(nxt) - U32(una)) == nxt - una
  {
    var i, j := nxt / 0x1_0000_0000, una / 0x1_0000_0000;
    assert U32(nxt) - U32(una) == nxt - una + (j - i) * 0x1_0000_0000;
  }

  lemma {:induction false} SizeWraps(ws: seq<Wire>)
    ensures Size(WrapGram(ws)) == Size(ws)
  {
    hide U32;
    if ws != [] {
      MapTail(WrapWire, ws, 1);
      SizeWraps(ws[1..]);
    }
  }

  function WrapPacking(p: Packing): Packing {
    Packing(Map(WrapGram, p.done), WrapGram(p.open))
  }

  lemma PutWraps(room: int, p: Packing, w: Wire)
    ensures Codec.Put(room, WrapPacking(p), WrapWire(w)) == WrapPacking(Codec.Put(room, p, w))
  {
    hide U32, Size;
    SizeWraps(p.open);
    MapOne(WrapWire, w);
    MapConcat(WrapWire, p.open, [w]);
    MapOne(WrapGram, p.open);
    MapConcat(WrapGram, p.done, [p.open]);
  }

  lemma {:induction false} PutAllWraps(room: int, p: Packing, ws: seq<Wire>)
    ensures PutAll(room, WrapPacking(p), WrapGram(ws)) == WrapPacking(PutAll(room, p, ws))
    decreases |ws|
  {
    hide WrapWire, WrapPacking, Codec.Put;
    if ws != [] {
      PutWraps(room, p, ws[0]);
      MapTail(WrapWire, ws, 1);
      PutAllWraps(room, Codec.Put(room, p, ws[0]), ws[1..]);
    }
  }

  /** The same segments go into the same datagrams. */
  lemma DatagramsWrap(cfg: Config, ws: seq<Wire>)
    ensures Datagrams(cfg, WrapGram(ws)) == Map(WrapGram, Datagrams(cfg, ws))
  {
    hide PutAll, WrapWire;
    var room := cfg.mtu - cfg.headRoom;
    var p := PutAll(room, Packing([], []), ws);
    assert WrapPacking(Packing([], [])) == Packing([], []);
    PutAllWraps(room, Packing([], []), ws);
    MapOne(WrapGram, p.open);
    MapConcat(WrapGram, p.done, [p.open]);
  }

  // ---------------------------------------------------------------------
  // Every operation, every run
  // ---------------------------------------------------------------------

  lemma FlushOpWraps(p: Peer, current: int)
    requires PeerInv(p)
    ensures var (p', out) := FlushOp(Wide, p, current);
      FlushOp(Ring32, WrapPeer(p), current) == (WrapPeer(p'), Map(WrapGram, out))
  {
    hide Flush, WrapKcb, KcbInv, Datagrams, MoveCount, WrapGram, SendWindow;
    FlushStateWraps(p.cfg, p.k, current);
    FlushWiresWrap(p.cfg, p.k, current);
    FilledWraps(p.cfg, p.k, current);
    SendWindowWraps(p.cfg, p.k);
    DatagramsWrap(p.cfg, Flush(Wide, p.cfg, p.k, current).wires);
    assert WrapKcb(p.k).snd.que == p.k.snd.que by { WrapQue(p.k); }
  }

  lemma WrapQue(k: Kcb)
    ensures WrapKcb(k).snd.que == k.snd.que
  {
  }

  lemma FlushAckOpWraps(p: Peer)
    ensures var (p', out) := FlushAckOp(p);
      FlushAckOp(WrapPeer(p)) == (WrapPeer(p'), Map(WrapGram, out))
  {
    hide AckWires, Datagrams, WrapGram, WrapSnd, WrapRcv;
    AckWiresWrap(p.cfg, p.k);
    DatagramsWrap(p.cfg, AckWires(p.cfg, p.k, p.k.acks));
    assert Map(WrapAck, []) == [];
  }

  lemma WriteOpWraps(p: Peer, alwaysStream: bool, data: seq<byte>)
    requires p.cfg.mss > 0
    ensures WriteOp(WrapPeer(p), alwaysStream, data) == WrapPeer(WriteOp(p, alwaysStream, data))
  {
    hide Enqueue, WrapBuf, WrapRcv, U32;
  }

  lemma RecvOpWraps(p: Peer, len: int)
    requires PeerInv(p)
    ensures RecvOp(Ring32, WrapPeer(p), len) == WrapPeer(RecvOp(Wide, p, len))
  {
    hide RecvFront, FrontCount, WrapSnd, WrapSegs, SndInv, Sized, Draining;
    RecvFrontWraps(p.cfg.rcvWnd, p.k.rcv, len);
    FrontCountWraps(p.k.rcv.que);
  }

  lemma InputBox(x: Peer, y: Peer, fromX: seq<seq<Wire>>, fromY: seq<seq<Wire>>, i: nat)
    requires Pair(x, y, fromX, fromY) && i < |fromY|
    requires forall j :: 0 <= j < |fromY[i]| ==> Recent(|x.log|, |y.log|, fromY[i][j])
    ensures InputOp(Ring32, WrapPeer(x), Map(WrapGram, fromY)[i]) == WrapPeer(InputOp(Wide, x, fromY[i]))
  {
    hide KcbInv, TxInv, RxInv, Retained, AcksOk, PushOk, AckOk, InRing, Recent, WrapGram, InputOp, WrapPeer;
    InputOpWraps(x, y, fromX, fromY, fromY[i]);
  }

  /** The acting side, seen as a pair with the other. */
  ghost predicate ActorOk(n: Net, side: Side) {
    Pair(PeerAt(n, side), PeerAt(n, Other(side)), SentBy(n, side), SentBy(n, Other(side)))
  }

  lemma ActorIsOk(n: Net, side: Side)
    requires NetInv(n)
    ensures ActorOk(n, side)
  {
    hide Pair;
    if side.B? {
      PairSwap(n.a, n.b, n.fromA, n.fromB);
    }
  }

  lemma PutNetWraps(n: Net, side: Side, p: Peer, out: seq<seq<Wire>>)
    ensures Connection.Put(WrapNet(n), side, WrapPeer(p), Map(WrapGram, out)) == WrapNet(Connection.Put(n, side, p, out))
  {
    hide WrapPeer, WrapGram;
    MapConcat(WrapGram, SentBy(n, side), out);
  }

  lemma NoGrams()
    ensures Map(WrapGram, []) == []
  {
  }

  /** One action: wrapping before or after makes no difference. */
  lemma StepWraps(n: Net, act: Action)
    requires Usable(n) && NetInv(n) && Timely(n, act)
    ensures Step(Ring32, WrapNet(n), act) == WrapNet(Step(Wide, n, act))
  {
    hide Pair, WriteOp, FlushOp, FlushAckOp, InputOp, RecvOp, WrapPeer, WrapGram, Recent, Connection.Put;
    var side := act.side;
    var p := PeerAt(n, side);
    ActorIsOk(n, side);
    ActorPeer(n, side);
    NoGrams();
    match act
    case WriteAt(_, alwaysStream, data) =>
      WriteOpWraps(p, alwaysStream, data);
      PutNetWraps(n, side, WriteOp(p, alwaysStream, data), []);
    case FlushAt(_, current) =>
      FlushOpWraps(p, current);
      PutNetWraps(n, side, FlushOp(Wide, p, current).0, FlushOp(Wide, p, current).1);
    case FlushAckAt(_) =>
      FlushAckOpWraps(p);
      PutNetWraps(n, side, FlushAckOp(p).0, FlushAckOp(p).1);
    case InputAt(_, i) =>
      var box := SentBy(n, Other(side));
      if i < |box| {
        InputBox(p, PeerAt(n, Other(side)), SentBy(n, side), box, i);
        PutNetWraps(n, side, InputOp(Wide, p, box[i]), []);
      }
    case RecvAt(_, len) =>
      RecvOpWraps(p, len);
      PutNetWraps(n, side, RecvOp(Wide, p, len), []);
  }

  lemma ActorPeer(n: Net, side: Side)
    requires ActorOk(n, side)
    ensures PeerInv(PeerAt(n, side)) && PeerAt(n, side).cfg.mss > 0
    ensures PeerAt(WrapNet(n), side) == WrapPeer(PeerAt(n, side))
  {
  }

  lemma {:induction false} RunWraps(n: Net, acts: seq<Action>)
    requires Usable(n) && NetInv(n) && TimelyRun(n, acts)
    ensures Run(Ring32, WrapNet(n), acts) == WrapNet(Run(Wide, n, acts))
    decreases |acts|
  {
    hide NetInv, Step, Timely, WrapPeer, WrapGram;
    if acts != [] {
      StepWraps(n, acts[0]);
      StepKeepsInv(n, acts[0]);
      RunWraps(Step(Wide, n, acts[0]), acts[1..]);
    }
  }

  lemma StartWraps(cfgA: Config, cfgB: Config)
    ensures WrapNet(Start(cfgA, cfgB)) == Start(cfgA, cfgB)
  {
  }

  // ---------------------------------------------------------------------
  // What a run of the 32-bit engine keeps
  // ---------------------------------------------------------------------

  /** A fragment is in snd_buf, under its wrapped number. */
  predicate InFlight(s: Peer, sn: nat)
    requires sn < |s.log|
  {
    exists i :: 0 <= i < |s.k.snd.buf| && s.k.snd.buf[i].sn == U32(sn) && s.k.snd.buf[i].frag == s.log[sn]
  }

  /** A fragment waits in the peer's rcv_buf, under its wrapped number. */
  predicate Waits(s: Peer, t: Peer, sn: nat)
    requires sn < |s.log|
  {
    exists i :: 0 <= i < |t.k.rcv.buf| && t.k.rcv.buf[i].sn == U32(sn) && Matches(t.k.rcv.buf[i], s.log[sn])
  }

  /** Every fragment numbered so far is in flight, waits at the peer, or has reached its rcv_queue. */
  ghost predicate NothingForgotten(s: Peer, t: Peer) {
    forall sn: nat :: sn < |s.log| ==> InFlight(s, sn) || Waits(s, t, sn) || sn < t.taken + |t.k.rcv.que|
  }

  /**
   From s to t: what has been read is a prefix of what has been written,
   message by message if only messages were sent; it is what the numbered
   fragments say, up to one of them; nothing undelivered is forgotten; and a
   full receive queue can be read.
   */
  ghost predicate Reliable(s: Peer, t: Peer) {
    && t.read <= s.written && (s.whole ==> t.got <= s.said)
    && t.taken <= |s.log| && t.got == Messages(s.log[..t.taken])
    && NothingForgotten(s, t)
    && (|t.k.rcv.que| >= t.cfg.rcvWnd ==> PeekSize(t.k.rcv.que) >= 0)
  }

  lemma RetainedWraps(s: Peer, t: Peer, fwd: seq<seq<Wire>>, bwd: seq<seq<Wire>>)
    requires Link(s, t, fwd, bwd)
    ensures NothingForgotten(WrapPeer(s), WrapPeer(t))
  {
    hide FwdOk, BwdOk, AcksOk, SndInv, RcvInv, TxHistory, U32;
    forall sn: nat | sn < |s.log|
      ensures InFlight(WrapPeer(s), sn) || Waits(WrapPeer(s), WrapPeer(t), sn) || sn < t.taken + |t.k.rcv.que|
    {
      if i :| 0 <= i < |s.k.snd.buf| && s.k.snd.buf[i].sn == sn {
        assert Logged(s.log, s.k.snd.buf[i]);
        assert WrapPeer(s).k.snd.buf[i] == WrapSndSeg(s.k.snd.buf[i]);
      } else {
        assert !Unacked(s.k.snd.buf, sn);
        if j :| 0 <= j < |t.k.rcv.buf| && t.k.rcv.buf[j].sn == sn {
          assert Genuine(s.log, t.k.rcv.buf[j]);
          assert WrapPeer(t).k.rcv.buf[j] == WrapRcvSeg(t.k.rcv.buf[j]);
        }
      }
    }
  }

  lemma ReadsLog(s: Peer, t: Peer, fwd: seq<seq<Wire>>, bwd: seq<seq<Wire>>)
    requires Link(s, t, fwd, bwd)
    ensures t.taken <= |s.log| && t.got == Messages(s.log[..t.taken])
  {
    hide TxInv, Retained, FwdOk, BwdOk, AcksOk, RcvInv, AllGenuine, AtBoundary;
  }

  lemma DeliversWraps(s: Peer, t: Peer, fwd: seq<seq<Wire>>, bwd: seq<seq<Wire>>)
    requires Link(s, t, fwd, bwd) && Delivers(s, t)
    ensures Reliable(WrapPeer(s), WrapPeer(t))
  {
    hide Link, Retained, NothingForgotten, PeekSize, WrapKcb;
    RetainedWraps(s, t, fwd, bwd);
    ReadsLog(s, t, fwd, bwd);
    PeekWraps(t.k);
  }

  /**
   End-to-end safety of the 32-bit engine: in every run in which no datagram
   outlives half the sequence space, both directions are reliable.
   */
  lemma EveryTimelyRunDelivers(cfgA: Config, cfgB: Config, acts: seq<Action>)
    requires ConfigOk(cfgA) && ConfigOk(cfgB) && TimelyRun(Start(cfgA, cfgB), acts)
    ensures var n := Run(Ring32, Start(cfgA, cfgB), acts);
      Reliable(n.a, n.b) && Reliable(n.b, n.a)
  {
    hide Run, TimelyRun, Delivers, WrapPeer, Link, PeerInv, WindowsOk, Reliable;
    var w := Run(Wide, Start(cfgA, cfgB), acts);
    StartInv(cfgA, cfgB);
    StartWraps(cfgA, cfgB);
    RunKeepsInv(Start(cfgA, cfgB), acts);
    RunWraps(Start(cfgA, cfgB), acts);
    EveryRunDelivers(cfgA, cfgB, acts);
    DeliversWraps(w.a, w.b, w.fromA, w.fromB);
    DeliversWraps(w.b, w.a, w.fromB, w.fromA);
  }

  lemma PeekWraps(k: Kcb)
    ensures PeekSize(WrapKcb(k).rcv.que) == PeekSize(k.rcv.que)
    ensures |WrapKcb(k).rcv.que| == |k.rcv.que|
  {
    PeekSizeWraps(k.rcv.que);
  }
}
