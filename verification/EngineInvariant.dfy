/**
 What every operation of the engine keeps, whatever bytes arrive, in either
 ring.
 */
module EngineInvariant {
  import opened SerialArith
  import opened Receiver
  import opened Sender
  import opened Codec
  import opened Engine
  import opened Fragments

  /** What the configuration order of a session establishes. */
  predicate ConfigOk(cfg: Config) {
    && cfg.mss > 0 && cfg.headRoom >= 0 && cfg.mtu == cfg.mss + cfg.headRoom + OVERHEAD
    && cfg.mtu < 0x8000_0000
    && 0 < cfg.sndWnd < 0x8000_0000 && WndOk(cfg.rcvWnd)
    && 10 <= cfg.interval <= 5000 && (cfg.minRto == 30 || cfg.minRto == 100)
    && cfg.fastResend >= 0 && cfg.deadLink > 0
  }

  /** The most numbers that can be outstanding. */
  function Window(cfg: Config): int {
    Min(cfg.sndWnd, MAX_WND)
  }

  predicate FragFits(mss: int, f: Frag) {
    |f.data| <= mss && 0 <= f.frg < FRAG_LIMIT - 1
  }

  /** Everything queued or in flight was cut by ikcp_write. */
  ghost predicate Sized(mss: int, s: Snd) {
    && (forall i :: 0 <= i < |s.buf| ==> FragFits(mss, s.buf[i].frag))
    && WellCut(mss, s.que)
  }

  /** The sender and receiver invariants together, and what they need. */
  ghost predicate KcbInv(r: Ring, cfg: Config, k: Kcb) {
    && SndInv(r, Window(cfg), k.snd)
    && RcvInv(r, cfg.rcvWnd, k.rcv)
    && Sized(cfg.mss, k.snd)
    && 0 <= k.rmtWnd <= 65535 && 0 <= k.cong.cwnd
  }

  /** Any segment a header can carry. */
  predicate InRing(r: Ring, w: Wire) {
    Norm(r, w.sn) == w.sn && Norm(r, w.una) == w.una && 0 <= w.wnd <= 65535
  }

  /** snd_una has moved forward or stayed, and did not pass what had been sent. */
  predicate Forward(r: Ring, before: Snd, after: Snd) {
    0 <= Diff(r, after.una, before.una) <= Diff(r, before.nxt, before.una)
  }

  lemma FreshInv(r: Ring, cfg: Config)
    requires ConfigOk(cfg)
    ensures KcbInv(r, cfg, Fresh(cfg))
  {
  }

  /** Segments that stay in snd_buf stay the size they were. */
  lemma ParseUnaSized(r: Ring, mss: int, s: Snd, una: int)
    requires Sized(mss, s)
    ensures Sized(mss, ParseUna(r, s, una))
  {
    DropBelowIsSuffix(r, s.buf, una);
  }

  lemma ParseAckSized(r: Ring, mss: int, s: Snd, sn: int)
    requires Sized(mss, s)
    ensures Sized(mss, ParseAck(r, s, sn))
  {
    RemoveIsCut(r, s.buf, sn);
  }

  /** Going forward twice is going forward. */
  lemma ForwardTrans(r: Ring, wnd: int, a: Snd, b: Snd, c: Snd)
    requires SndWndOk(wnd) && Loose(r, wnd, a) && Forward(r, a, b) && Forward(r, b, c) && a.nxt == b.nxt
    ensures Forward(r, a, c)
  {
    hide SegsOk;
    DiffShift(r, b.nxt, b.una, a.una);
    var i := DiffUnfold(r, c.una, b.una);
    var j := DiffUnfold(r, b.una, a.una);
    DiffExact(r, c.una, a.una, i + j);
  }

  /** What one segment does to the sender: cumulative, then selective acknowledgement. */
  function SndAfter(r: Ring, s: Snd, w: Wire): Snd {
    var s1 := ParseUna(r, s, w.una);
    if w.cmd == CMD_ACK then ParseAck(r, s1, w.sn) else s1
  }

  lemma SndAfterKeepsInv(r: Ring, wnd: int, mss: int, s: Snd, w: Wire)
    requires SndWndOk(wnd) && SndInv(r, wnd, s) && Sized(mss, s)
    ensures SndInv(r, wnd, SndAfter(r, s, w)) && Sized(mss, SndAfter(r, s, w))
    ensures Forward(r, s, SndAfter(r, s, w)) && SndAfter(r, s, w).nxt == s.nxt
  {
    hide Sized, Diff;
    var s1 := ParseUna(r, s, w.una);
    ParseUnaKeepsInv(r, wnd, s, w.una);
    ParseUnaSized(r, mss, s, w.una);
    if w.cmd == CMD_ACK {
      ParseAckKeepsInv(r, wnd, s1, w.sn);
      ParseAckSized(r, mss, s1, w.sn);
      ForwardTrans(r, wnd, s, s1, ParseAck(r, s1, w.sn));
    }
  }

  lemma InputSegSnd(r: Ring, cfg: Config, k: Kcb, w: Wire)
    ensures InputSeg(r, cfg, k, w).snd == SndAfter(r, k.snd, w)
    ensures InputSeg(r, cfg, k, w).rcv ==
      if w.cmd == CMD_PUSH then ParseData(r, cfg.rcvWnd, k.rcv, RcvSeg(w.sn, w.frg, w.data)) else k.rcv
  {
  }

  lemma InputSegKeepsInv(r: Ring, cfg: Config, k: Kcb, w: Wire)
    requires ConfigOk(cfg) && KcbInv(r, cfg, k) && InRing(r, w)
    ensures KcbInv(r, cfg, InputSeg(r, cfg, k, w))
    ensures Forward(r, k.snd, InputSeg(r, cfg, k, w).snd)
    ensures InputSeg(r, cfg, k, w).snd.nxt == k.snd.nxt
  {
    hide SndInv, Sized, RcvInv, Diff;
    InputSegSnd(r, cfg, k, w);
    SndAfterKeepsInv(r, Window(cfg), cfg.mss, k.snd, w);
    ParseDataKeepsInv(r, cfg.rcvWnd, k.rcv, RcvSeg(w.sn, w.frg, w.data));
  }

  lemma GrowNonNegative(mss: int, c: Cong, rmtWnd: int)
    requires mss > 0 && c.cwnd >= 0
    ensures Grow(mss, c, rmtWnd).cwnd >= 0
  {
    hide U32;
  }

  lemma SameSegsSized(mss: int, s: Snd, buf: seq<SndSeg>)
    requires Sized(mss, s) && SameSegs(s.buf, buf)
    ensures Sized(mss, s.(buf := buf))
  {
    forall i | 0 <= i < |buf|
      ensures FragFits(mss, buf[i].frag)
    {
      assert FragFits(mss, s.buf[i].frag);
    }
  }

  lemma EndInputKeepsInv(r: Ring, cfg: Config, k: Kcb, m: MaxAck, prevUna: int)
    requires ConfigOk(cfg) && KcbInv(r, cfg, k)
    ensures KcbInv(r, cfg, EndInput(r, cfg, k, m, prevUna))
    ensures EndInput(r, cfg, k, m, prevUna).snd.una == k.snd.una
    ensures EndInput(r, cfg, k, m, prevUna).snd.nxt == k.snd.nxt
  {
    hide SndInv, RcvInv, Sized, Grow, Diff;
    GrowNonNegative(cfg.mss, k.cong, k.rmtWnd);
    if m.MaxAck? {
      ParseFastackKeepsInv(r, Window(cfg), k.snd, m.sn);
      SameSegsSized(cfg.mss, k.snd, ParseFastack(r, k.snd, m.sn).buf);
    }
  }

  /** Header fields are ring numbers on the 32-bit ring. */
  lemma ParsedInRing(conv: int, b: seq<byte>)
    ensures Parse(conv, b).Segment? ==> InRing(Ring32, Parse(conv, b).w)
  {
  }

  /**
   ikcp_input on any bytes at all keeps every invariant, and never moves
   snd_una back or past what was sent.
   */
  lemma {:induction false} InputLoopKeepsInv(cfg: Config, k: Kcb, m: MaxAck, b: seq<byte>, prevUna: int)
    requires ConfigOk(cfg) && KcbInv(Ring32, cfg, k)
    ensures KcbInv(Ring32, cfg, InputLoop(cfg, k, m, b, prevUna).k)
    ensures Forward(Ring32, k.snd, InputLoop(cfg, k, m, b, prevUna).k.snd)
    ensures InputLoop(cfg, k, m, b, prevUna).k.snd.nxt == k.snd.nxt
    decreases |b|
  {
    hide InputSeg, EndInput, Diff, Parse, RcvInv, Sized;
    DiffSelf(Ring32, k.snd.una);
    match Parse(cfg.conv, b)
    case End => EndInputKeepsInv(Ring32, cfg, k, m, prevUna);
    case Segment(w, rest) =>
      var k' := InputSeg(Ring32, cfg, k, w);
      ParsedInRing(cfg.conv, b);
      InputSegKeepsInv(Ring32, cfg, k, w);
      InputLoopKeepsInv(cfg, k', NextMax(Ring32, m, w), rest, prevUna);
      ForwardTrans(Ring32, Window(cfg), k.snd, k'.snd, InputLoop(cfg, k', NextMax(Ring32, m, w), rest, prevUna).k.snd);
    case _ =>
  }

  lemma InputBytesKeepsInv(cfg: Config, k: Kcb, b: seq<byte>)
    requires ConfigOk(cfg) && KcbInv(Ring32, cfg, k)
    ensures KcbInv(Ring32, cfg, InputBytes(cfg, k, b).k)
    ensures Forward(Ring32, k.snd, InputBytes(cfg, k, b).k.snd)
    ensures InputBytes(cfg, k, b).k.snd.nxt == k.snd.nxt
  {
    DiffSelf(Ring32, k.snd.una);
    InputLoopKeepsInv(cfg, k, NoAck, b, k.snd.una);
  }

  /** The same for parsed segments, in either ring. */
  lemma {:induction false} InputSegsKeepsInv(r: Ring, cfg: Config, k: Kcb, m: MaxAck, ws: seq<Wire>)
    requires ConfigOk(cfg) && KcbInv(r, cfg, k)
    requires forall i :: 0 <= i < |ws| ==> InRing(r, ws[i])
    ensures KcbInv(r, cfg, InputSegs(r, cfg, k, m, ws).0)
    decreases |ws|
  {
    hide InputSeg, KcbInv, NextMax;
    if ws != [] {
      InputSegKeepsInv(r, cfg, k, ws[0]);
      InputSegsKeepsInv(r, cfg, InputSeg(r, cfg, k, ws[0]), NextMax(r, m, ws[0]), ws[1..]);
    }
  }

  lemma InputKeepsInv(r: Ring, cfg: Config, k: Kcb, ws: seq<Wire>)
    requires ConfigOk(cfg) && KcbInv(r, cfg, k)
    requires forall i :: 0 <= i < |ws| ==> InRing(r, ws[i])
    ensures KcbInv(r, cfg, Input(r, cfg, k, ws))
  {
    hide KcbInv;
    var (k', m) := InputSegs(r, cfg, k, NoAck, ws);
    InputSegsKeepsInv(r, cfg, k, NoAck, ws);
    EndInputKeepsInv(r, cfg, k', m, k.snd.una);
  }

  // ---------------------------------------------------------------------
  // ikcp_flush
  // ---------------------------------------------------------------------

  lemma SendWindowOk(cfg: Config, k: Kcb)
    requires ConfigOk(cfg) && 0 <= k.rmtWnd <= 65535 && 0 <= k.cong.cwnd
    ensures 0 <= SendWindow(cfg, k) <= Window(cfg)
  {
  }

  lemma SweepAllSame(cfg: Config, current: int, rto: int, buf: seq<SndSeg>)
    ensures SameSegs(buf, SweepAll(cfg, current, rto, buf))
  {
    hide KindOf, BackOff;
  }

  /** Numbered fragments keep their size, and what stays queued is still well cut. */
  lemma FillSized(r: Ring, mss: int, s: Snd, cwnd: int, current: int, rto: int)
    requires Sized(mss, s) && Norm(r, s.nxt) == s.nxt
    ensures Sized(mss, Fill(r, s, cwnd, current, rto))
  {
    FillIsFifo(r, s, cwnd, current, rto);
    var m := MoveCount(r, s, cwnd);
    var s' := Fill(r, s, cwnd, current, rto);
    forall i | 0 <= i < |s'.buf|
      ensures FragFits(mss, s'.buf[i].frag)
    {
      if i >= |s.buf| {
        NumberAllAt(r, s.nxt, s.que[..m], current, rto, i - |s.buf|);
      }
    }
    WellCutSuffix(mss, s.que, m);
  }

  lemma WellCutSuffix(mss: int, fs: seq<Frag>, m: nat)
    requires WellCut(mss, fs) && m <= |fs|
    ensures WellCut(mss, fs[m..])
  {
    var gs := fs[m..];
    forall i | 0 <= i < |gs| - 1 && gs[i].frg > 0
      ensures gs[i + 1].frg == gs[i].frg - 1
    {
      assert fs[m + i].frg > 0;
    }
  }

  lemma FilledOk(r: Ring, cfg: Config, k: Kcb, current: int)
    requires ConfigOk(cfg) && KcbInv(r, cfg, k)
    ensures SndInv(r, Window(cfg), Filled(r, cfg, k, current))
    ensures Sized(cfg.mss, Filled(r, cfg, k, current))
    ensures Filled(r, cfg, k, current).una == k.snd.una
  {
    hide Sized, RcvInv, Diff, Norm;
    SendWindowOk(cfg, k);
    FillKeepsInv(r, Window(cfg), k.snd, SendWindow(cfg, k), current, k.rtt.rto);
    FillSized(r, cfg.mss, k.snd, SendWindow(cfg, k), current, k.rtt.rto);
  }

  lemma FlushKeepsInv(r: Ring, cfg: Config, k: Kcb, current: int)
    requires ConfigOk(cfg) && KcbInv(r, cfg, k)
    ensures KcbInv(r, cfg, Flush(r, cfg, k, current).k)
    ensures Flush(r, cfg, k, current).k.snd.una == k.snd.una
    ensures 0 <= Diff(r, Flush(r, cfg, k, current).k.snd.nxt, k.snd.una) <= Window(cfg)
  {
    hide Sized, RcvInv, Fill, SegsOk, Diff, Norm;
    var s := Filled(r, cfg, k, current);
    FilledOk(r, cfg, k, current);
    SweepAllSame(cfg, current, k.rtt.rto, s.buf);
    SameSegsOk(r, Window(cfg), s, SweepAll(cfg, current, k.rtt.rto, s.buf));
    SameSegsSized(cfg.mss, s, SweepAll(cfg, current, k.rtt.rto, s.buf));
  }

  // ---------------------------------------------------------------------
  // ikcp_write and ikcp_recv
  // ---------------------------------------------------------------------

  lemma WriteKeepsInv(r: Ring, cfg: Config, k: Kcb, alwaysStream: bool, data: seq<byte>)
    requires ConfigOk(cfg) && KcbInv(r, cfg, k)
    ensures KcbInv(r, cfg, Write(cfg, k, alwaysStream, data).0)
  {
    hide SegsOk, RcvInv, Diff, Norm, Enqueue;
    WriteAppends(cfg.mss, cfg.stream || alwaysStream, k.snd.que, data);
  }

  lemma RecvKeepsInv(r: Ring, cfg: Config, k: Kcb, len: int)
    requires ConfigOk(cfg) && KcbInv(r, cfg, k)
    ensures KcbInv(r, cfg, Recv(r, cfg, k, len).0)
  {
    hide SndInv, RcvInv, Sized;
    RecvFrontKeepsInv(r, cfg.rcvWnd, k.rcv, len);
  }
}
