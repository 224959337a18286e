/**
 How much a flush sends: as much as the smallest of the windows leaves room
 for, the peer's among them; and what window it announces to the peer.
 */
module FlowControl {
  import opened SerialArith
  import opened Receiver
  import opened Sender
  import opened Codec
  import opened Engine
  import opened EngineInvariant
  import opened Endpoint
  import opened Arrivals
  import opened Connection

  // ---------------------------------------------------------------------
  // Numbering
  // ---------------------------------------------------------------------

  /** The numbers in flight, acknowledged ones between others included. */
  function NumbersOut(r: Ring, s: Snd): int {
    Diff(r, s.nxt, s.una)
  }

  lemma RoomLeft(r: Ring, wnd: int, s: Snd, cwnd: int)
    requires SndWndOk(wnd) && SndInv(r, wnd, s) && 0 <= cwnd <= wnd
    ensures CanMoveOut(r, s, cwnd) <==> s.que != [] && NumbersOut(r, s) < cwnd
  {
    hide Diff, Norm, SegsOk;
    DiffMove(r, s.nxt, s.una, cwnd);
  }

  /** The loop goes on until the window is full or the queue is empty, and no further. */
  lemma {:induction false} FillReaches(r: Ring, wnd: int, s: Snd, cwnd: int, current: int, rto: int)
    requires SndWndOk(wnd) && SndInv(r, wnd, s) && 0 <= cwnd <= wnd
    ensures var s', n := Fill(r, s, cwnd, current, rto), NumbersOut(r, s);
      var n' := NumbersOut(r, s');
      && s'.una == s.una
      && n <= n' <= Max(n, cwnd) && n' - n <= |s.que| && s'.que == s.que[n' - n..]
      && (n' == n ==> s'.nxt == s.nxt)
      && (s'.que == [] || n' >= cwnd)
    decreases |s.que|
  {
    hide Diff, Norm, SegsOk, Shrink;
    RoomLeft(r, wnd, s, cwnd);
    if CanMoveOut(r, s, cwnd) {
      MoveOutKeepsInv(r, wnd, s, cwnd, current, rto);
      FillReaches(r, wnd, MoveOut(r, s, current, rto), cwnd, current, rto);
    }
  }

  lemma FlushIsFill(r: Ring, cfg: Config, k: Kcb, current: int)
    ensures var s, f := Fill(r, k.snd, SendWindow(cfg, k), current, k.rtt.rto), Flush(r, cfg, k, current).k.snd;
      f.una == s.una && f.nxt == s.nxt && f.que == s.que
  {
    hide Fill, SendWindow, SweepAll, NextProbe, AckWires, ProbeWires, PushWires, AfterLoss;
  }

  /**
   A flush numbers fragments from the front of snd_queue. It goes past neither
   the own window, nor the peer's, nor the congestion window when that is in
   use; and it stops only at one of them or at the end of the queue.
   */
  lemma FlushFillsWindow(r: Ring, cfg: Config, k: Kcb, current: int)
    requires ConfigOk(cfg) && KcbInv(r, cfg, k)
    ensures var s, n := Flush(r, cfg, k, current).k.snd, NumbersOut(r, k.snd);
      var n' := NumbersOut(r, s);
      && s.una == k.snd.una && 0 <= n <= n' && n' - n <= |k.snd.que| && s.que == k.snd.que[n' - n..]
      && n' <= Max(n, cfg.sndWnd) && n' <= Max(n, k.rmtWnd) && (!cfg.noCwnd ==> n' <= Max(n, k.cong.cwnd))
      && (s.que == [] || n' >= cfg.sndWnd || n' >= k.rmtWnd || (!cfg.noCwnd && n' >= k.cong.cwnd))
      && (n' == n ==> s.nxt == k.snd.nxt)
  {
    hide Flush, Fill, Diff, Norm, RcvInv, Sized, SegsOk, Shrink;
    SendWindowOk(cfg, k);
    FlushIsFill(r, cfg, k, current);
    FillReaches(r, Window(cfg), k.snd, SendWindow(cfg, k), current, k.rtt.rto);
  }

  // ---------------------------------------------------------------------
  // Over any calls
  // ---------------------------------------------------------------------

  /** The window announced by the last segment that any call has read; 128 before the first. */
  function Announced(cfg: Config, calls: seq<Call>): int
    decreases |calls|
  {
    if calls == [] then 128
    else
      var n := |calls| - 1;
      var before := Announced(cfg, calls[..n]);
      if calls[n].CallInput? then LastWnd(ReadFrom(cfg.conv, calls[n].bytes).0, before) else before
  }

  lemma {:induction false} WindowIsAnnounced(cfg: Config, calls: seq<Call>)
    requires cfg.mss > 0
    ensures After(cfg, calls).rmtWnd == Announced(cfg, calls)
    decreases |calls|
  {
    hide Apply, ReadFrom, LastWnd;
    if calls != [] {
      var n := |calls| - 1;
      WindowIsAnnounced(cfg, calls[..n]);
      CallKeepsWindow(cfg, After(cfg, calls[..n]), calls[n]);
    }
  }

  lemma CallKeepsWindow(cfg: Config, k: Kcb, call: Call)
    requires cfg.mss > 0
    ensures Apply(cfg, k, call).rmtWnd ==
      if call.CallInput? then LastWnd(ReadFrom(cfg.conv, call.bytes).0, k.rmtWnd) else k.rmtWnd
  {
    hide InputBytes, ReadFrom, LastWnd, Fragments.Enqueue, RecvFront, SweepAll, NextProbe, AfterLoss, Filled;
    if call.CallInput? {
      InputTells(cfg, k, call.bytes);
    }
  }

  /**
   In every run of one end, whatever its input: a flush never brings the
   outstanding numbers past the window the peer announced last, and numbers
   nothing when that is 0.
   */
  lemma EveryFlushHeedsPeer(cfg: Config, calls: seq<Call>, current: u32)
    requires ConfigOk(cfg)
    ensures var k := After(cfg, calls);
      var s, n := Flush(Ring32, cfg, k, current).k.snd, NumbersOut(Ring32, k.snd);
      && n <= NumbersOut(Ring32, s) <= Max(n, Announced(cfg, calls))
      && (Announced(cfg, calls) <= n ==> s.nxt == k.snd.nxt && s.que == k.snd.que)
  {
    hide KcbInv, Flush, NumbersOut, Apply, Announced, StateOk;
    EveryStateOk(cfg, calls);
    WindowIsAnnounced(cfg, calls);
    FlushFillsWindow(Ring32, cfg, After(cfg, calls), current);
  }

  // ---------------------------------------------------------------------
  // The window announced
  // ---------------------------------------------------------------------

  lemma RoomIs(cfg: Config, k: Kcb)
    requires KcbInv(Ring32, cfg, k)
    ensures WndUnused(cfg, k) + |k.rcv.que| == cfg.rcvWnd
  {
    hide SndInv, Sized, BufOk, QueOk;
  }

  /**
   Every segment a flush sends announces the room that is left in rcv_queue and
   acknowledges everything before rcv_nxt. Data says when it was sent, and a
   probe repeats the number and time of the last acknowledgement before it.
   */
  lemma FlushAnnounces(cfg: Config, k: Kcb, current: u32, w: Wire)
    requires KcbInv(Ring32, cfg, k) && w in Flush(Ring32, cfg, k, current).wires
    ensures w.wnd + |k.rcv.que| == cfg.rcvWnd && w.una == k.rcv.nxt
    ensures w.cmd == CMD_PUSH ==> w.ts == current
    ensures w.cmd == CMD_WASK || w.cmd == CMD_WINS ==>
      if k.acks == [] then w.sn == 0 && w.ts == 0
      else w.sn == k.acks[|k.acks| - 1].sn && w.ts == k.acks[|k.acks| - 1].ts
  {
    hide KcbInv, Flush, Filled, WndUnused;
    RoomIs(cfg, k);
    FlushSends(Ring32, cfg, k, current, w);
  }
}
