/**
 What a session does with the engine: its configuration, how a write is split
 between a message and an append, and how received messages are handed over.
 */
module SessionSteps {
  import TwoEnds
  import opened SerialArith
  import opened Options
  import opened Receiver
  import opened Sender
  import opened Codec
  import opened Fragments
  import opened Engine
  import opened EngineInvariant
  import opened Connection
  import opened WrappedRuns
  import opened ByteRuns
  import opened WholeMessages
  import opened Endpoint
  import opened Congestion
  import opened Timers

  // ---------------------------------------------------------------------
  // Configuration
  // ---------------------------------------------------------------------

  /** KCPSession::Params, as far as the engine looks at them. */
  datatype Params = Params(
    sndWnd: int, rcvWnd: int, nodelay: int, interval: int, resend: int, nocongestion: int,
    mtu: int, headRoom: int, streamMode: int)

  /** ikcp_create's configuration. */
  function Created(conv: u32): Config {
    Config(conv, 1400, 1376, 0, 32, 128, 100, 0, 100, 0, 5, false, false, 20)
  }

  /** ikcp_wndsize: the receive window never shrinks below the largest message. */
  function WndSize(cfg: Config, sndWnd: int, rcvWnd: int): Config {
    cfg.(sndWnd := if sndWnd > 0 then sndWnd else cfg.sndWnd,
         rcvWnd := if rcvWnd > 0 then Max(rcvWnd, 128) else cfg.rcvWnd)
  }

  function SetMtu(cfg: Config, mtu: int): Option<Config> {
    if mtu < 50 || mtu < OVERHEAD || mtu < cfg.headRoom then None
    else Some(cfg.(mtu := mtu, mss := mtu - cfg.headRoom - OVERHEAD))
  }

  function SetHeadRoom(cfg: Config, headRoom: u32): Option<Config> {
    if headRoom >= cfg.mss then None
    else Some(cfg.(headRoom := headRoom, mss := cfg.mss - headRoom))
  }

  function NoDelay(cfg: Config, nodelay: int, interval: int, resend: int, nc: int): Config {
    cfg.(nodelay := if nodelay >= 0 then nodelay else cfg.nodelay,
         minRto := if nodelay > 0 then 30 else if nodelay == 0 then 100 else cfg.minRto,
         interval := if interval >= 0 then Bound(10, interval, 5000) else cfg.interval,
         fastResend := if resend >= 0 then resend else cfg.fastResend,
         noCwnd := if nc >= 0 then nc != 0 else cfg.noCwnd)
  }

  /** KCPSession::Initialize, in its order. */
  function Initialize(conv: u32, p: Params): Option<Config> {
    var created := Created(conv).(stream := p.streamMode != 0);
    match SetMtu(WndSize(created, p.sndWnd, p.rcvWnd), p.mtu)
    case None => None
    case Some(sized) =>
      match SetHeadRoom(sized, U32(p.headRoom))
      case None => None
      case Some(cfg) => Some(NoDelay(cfg, p.nodelay, p.interval, p.resend, p.nocongestion))
  }

  /** C's int. */
  predicate IsInt(x: int) {
    -0x8000_0000 <= x < 0x8000_0000
  }

  predicate IntParams(p: Params) {
    && IsInt(p.sndWnd) && IsInt(p.rcvWnd) && IsInt(p.nodelay) && IsInt(p.interval) && IsInt(p.resend)
    && IsInt(p.nocongestion) && IsInt(p.mtu) && IsInt(p.headRoom) && IsInt(p.streamMode)
  }

  /**
   A session starts exactly when a segment with one byte of data fits between
   the head room and the mtu. Its configuration then meets everything the
   engine relies on, provided the receive window can be announced in 16 bits.
   */
  lemma InitializeExactly(conv: u32, p: Params)
    requires IntParams(p)
    ensures Initialize(conv, p).Some? <==> p.mtu >= 50 && 0 <= p.headRoom < p.mtu - OVERHEAD
    ensures Initialize(conv, p).Some? ==>
      (ConfigOk(Initialize(conv, p).value) <==> p.rcvWnd <= 65535)
  {
  }

  /** The two parameter sets of the program, with the envelope's nine bytes of head room. */
  const NORMAL := Params(64, 64, 0, 100, 3, 0, 1400, 9, 0)
  const FAST := Params(128, 128, 1, 50, 3, 1, 1400, 9, 0)

  /** What the two parameter sets come to. */
  lemma BothModesAre(conv: u32)
    ensures Initialize(conv, NORMAL) == Some(Config(conv, 1400, 1367, 9, 64, 128, 100, 0, 100, 3, 5, false, false, 20))
    ensures Initialize(conv, FAST) == Some(Config(conv, 1400, 1367, 9, 128, 128, 50, 1, 30, 3, 5, true, false, 20))
  {
  }

  lemma BothModesAreSound(conv: u32)
    ensures Initialize(conv, NORMAL).Some? && ConfigOk(Initialize(conv, NORMAL).value)
    ensures Initialize(conv, NORMAL).value.rcvWnd == 128 && CongConfig(Initialize(conv, NORMAL).value)
    ensures Initialize(conv, FAST).Some? && ConfigOk(Initialize(conv, FAST).value)
    ensures CongConfig(Initialize(conv, FAST).value) && TimerConfig(Initialize(conv, FAST).value)
  {
  }

  // ---------------------------------------------------------------------
  // Writing
  // ---------------------------------------------------------------------

  /** ikcp_waitsnd. */
  function WaitSnd(k: Kcb): nat {
    |k.snd.buf| + |k.snd.que|
  }

  /** A flush moves segments from one queue to the other. */
  lemma FlushKeepsBacklog(p: Peer, now: u32)
    ensures WaitSnd(FlushOp(Ring32, p, now).0.k) == WaitSnd(p.k)
  {
    hide SendWindow, NextProbe, AfterLoss, AckWires, ProbeWires, PushWires;
    FillCounts(p.k.snd, SendWindow(p.cfg, p.k), now, p.k.rtt.rto);
  }

  lemma {:induction false} FillCounts(s: Snd, cwnd: int, current: int, rto: int)
    ensures var t := Fill(Ring32, s, cwnd, current, rto); |t.buf| + |t.que| == |s.buf| + |s.que|
    decreases |s.que|
  {
    hide Diff, Norm;
    if CanMoveOut(Ring32, s, cwnd) {
      FillCounts(MoveOut(Ring32, s, current, rto), cwnd, current, rto);
    }
  }

  /** ikcp_need_drain. */
  predicate NeedDrain(cfg: Config, k: Kcb) {
    WaitSnd(k) > cfg.sndWnd
  }

  /** ikcp_reach_snd_hghwat: the session sets the mark to its send window. */
  predicate ReachHighWater(cfg: Config, k: Kcb) {
    WaitSnd(k) >= cfg.sndWnd + cfg.sndWnd
  }

  /** ikcp_available_wnd_in_mss, without and with the congestion window. */
  function AvailableSegs(cfg: Config, k: Kcb, useCwnd: bool): int {
    var wnd := if useCwnd then SendWindow(cfg, k) else Min(cfg.sndWnd, k.rmtWnd);
    if wnd > WaitSnd(k) then wnd - WaitSnd(k) else 0
  }

  function AvailableBytes(cfg: Config, k: Kcb, useCwnd: bool): int {
    U32(AvailableSegs(cfg, k, useCwnd) * cfg.mss)
  }

  /** How much of a write is offered as a message before the rest is appended. */
  function Offered(cfg: Config, k: Kcb, len: nat): (n: nat)
    ensures n <= len
  {
    if NeedDrain(cfg, k) then 0 else Min(AvailableBytes(cfg, k, false), len)
  }

  /** A size_t cast to int, as the session casts the lengths it passes on. */
  function AsInt(n: nat): (m: int)
    ensures m <= n && (m == n <==> n < 0x8000_0000)
  {
    I32(n)
  }

  /** What ikcp_send or ikcp_append returns: a length that the cast has made negative is refused. */
  function CallRet(cfg: Config, k: Kcb, alwaysStream: bool, data: seq<byte>): int
    requires cfg.mss > 0
  {
    var len := AsInt(|data|);
    if len < 0 then -1 else Write(cfg, k, alwaysStream, data[..len]).1
  }

  /** The end after the call: of what the cast leaves, the engine gets the beginning. */
  function CallOp(p: Peer, alwaysStream: bool, data: seq<byte>): Peer
    requires p.cfg.mss > 0
  {
    var len := AsInt(|data|);
    if len < 0 then p else WriteOp(p, alwaysStream, data[..len])
  }

  function CallActions(side: Side, alwaysStream: bool, data: seq<byte>): seq<Action> {
    var len := AsInt(|data|);
    if len < 0 then [] else [WriteAt(side, alwaysStream, data[..len])]
  }

  predicate Accepts(cfg: Config, k: Kcb, data: seq<byte>)
    requires cfg.mss > 0
  {
    CallRet(cfg, k, false, data) == 0
  }

  /** How much of a write goes out as a message. */
  function SentOf(p: Peer, data: seq<byte>): (n: nat)
    requires p.cfg.mss > 0
    ensures n <= |data|
  {
    var n := Offered(p.cfg, p.k, |data|);
    if n > 0 && Accepts(p.cfg, p.k, data[..n]) then n else 0
  }

  /** How much of a write is accepted at all, as a message or behind it. */
  function TakenOf(p: Peer, data: seq<byte>): (n: nat)
    requires p.cfg.mss > 0
    ensures n <= |data|
  {
    var sent := SentOf(p, data);
    sent + Max(AsInt(|data| - sent), 0)
  }

  predicate FlushesAtOnce(p: Peer, data: seq<byte>)
    requires p.cfg.mss > 0
  {
    SentOf(p, data) > 0 && AvailableBytes(p.cfg, p.k, true) > 0
  }

  /** The calls one write makes: send, flush if the window is open, append the rest. */
  function WriteActions(side: Side, p: Peer, data: seq<byte>, now: u32): seq<Action>
    requires p.cfg.mss > 0
  {
    var n, sent := Offered(p.cfg, p.k, |data|), SentOf(p, data);
    (if n > 0 then CallActions(side, false, data[..n]) else [])
    + (if FlushesAtOnce(p, data) then [FlushAt(side, now)] else [])
    + (if sent < |data| then CallActions(side, true, data[sent..]) else [])
  }

  /** The message half of a write on one end: the new state and what goes out. */
  function SendPeer(p: Peer, data: seq<byte>, now: u32): (Peer, seq<seq<Wire>>)
    requires p.cfg.mss > 0
  {
    var n := Offered(p.cfg, p.k, |data|);
    var p1 := if n > 0 then CallOp(p, false, data[..n]) else p;
    if FlushesAtOnce(p, data) then FlushOp(Ring32, p1, now) else (p1, [])
  }

  /** A refused call changes nothing, and stream data of a length that is not negative is never refused. */
  lemma WriteOpTells(p: Peer, alwaysStream: bool, data: seq<byte>)
    requires p.cfg.mss > 0
    ensures WriteOp(p, alwaysStream, data).cfg == p.cfg
    ensures Write(p.cfg, p.k, alwaysStream, data).1 == 0 ==> WriteOp(p, alwaysStream, data).written == p.written + data
    ensures Write(p.cfg, p.k, alwaysStream, data).1 != 0 ==> WriteOp(p, alwaysStream, data) == p
    ensures alwaysStream ==> Write(p.cfg, p.k, alwaysStream, data).1 == 0
    ensures WriteOp(p, alwaysStream, data).read == p.read
  {
    hide Spare, Extend, CutStream, Cut, CountOf;
  }

  lemma CallTells(p: Peer, alwaysStream: bool, data: seq<byte>)
    requires p.cfg.mss > 0
    ensures var q, ret, len := CallOp(p, alwaysStream, data), CallRet(p.cfg, p.k, alwaysStream, data), AsInt(|data|);
      && q.cfg == p.cfg && q.read == p.read
      && (ret == 0 ==> len >= 0 && q.written == p.written + data[..len])
      && (ret != 0 ==> q == p)
      && (alwaysStream ==> (ret == 0 <==> len >= 0))
      && (ret == 0 && |data| < 0x1_0000_0000 ==> len == |data|)
  {
    hide Write, WriteOp;
    if AsInt(|data|) >= 0 {
      WriteOpTells(p, alwaysStream, data[..AsInt(|data|)]);
    }
  }

  /** The window never offers more than an unsigned int can count. */
  lemma OfferedInRange(cfg: Config, k: Kcb, len: nat)
    ensures Offered(cfg, k, len) < 0x1_0000_0000
  {
  }

  lemma SendPeerTells(p: Peer, data: seq<byte>, now: u32)
    requires p.cfg.mss > 0
    ensures SendPeer(p, data, now).0.cfg == p.cfg && SendPeer(p, data, now).0.read == p.read
    ensures SendPeer(p, data, now).0.written == p.written + data[..SentOf(p, data)]
  {
    hide CallRet, CallOp, Flush, AvailableBytes, Offered, MoveCount;
    var n := Offered(p.cfg, p.k, |data|);
    OfferedInRange(p.cfg, p.k, |data|);
    CallTells(p, false, data[..n]);
    assert data[..n][..|data[..n]|] == data[..n];
    assert p.written + [] == p.written;
  }

  /** The whole write. */
  function WritePeer(p: Peer, data: seq<byte>, now: u32): (Peer, seq<seq<Wire>>)
    requires p.cfg.mss > 0
  {
    SendPeerTells(p, data, now);
    var (p', out) := SendPeer(p, data, now);
    (if SentOf(p, data) < |data| then CallOp(p', true, data[SentOf(p, data)..]) else p', out)
  }

  lemma OneStep(n: ByteNet, act: Action)
    requires ByteUsable(n)
    ensures ByteRun(n, [act]) == ByteStep(n, act)
    ensures ByteRun(n, []) == n
  {
    hide ByteStep, ByteUsable;
  }

  /** A call over the network changes the end it is made at, and adds what that sends. */
  lemma LocalSteps(n: ByteNet, side: Side, p: Peer, out: seq<seq<Wire>>, act: Action)
    requires ByteUsable(n) && p.cfg == BytePeer(n, side).cfg && act.side == side
    requires act.WriteAt? || act.FlushAt?
    ensures p.cfg.mss > 0
    ensures var m := BytePut(n, side, p, out);
      && ByteUsable(m)
      && (act.WriteAt? ==> ByteStep(m, act) == BytePut(n, side, WriteOp(p, act.alwaysStream, act.data), out))
      && (act.FlushAt? && out == [] ==>
            ByteStep(m, act) == BytePut(n, side, FlushOp(Ring32, p, act.current).0, FlushOp(Ring32, p, act.current).1))
    ensures act.WriteAt? ==> WriteOp(p, act.alwaysStream, act.data).cfg == p.cfg
    ensures act.FlushAt? ==> FlushOp(Ring32, p, act.current).0.cfg == p.cfg
  {
    hide Write, Flush, EncodeAll, MoveCount, Pack;
  }

  lemma PutNothing(n: ByteNet, side: Side)
    requires ByteUsable(n)
    ensures BytePut(n, side, BytePeer(n, side), []) == n
    ensures BytePeer(n, side).cfg.mss > 0
  {
    hide EncodeAll;
  }

  /** A call, cast included, is its action over the network. */
  lemma CallActionsRun(n: ByteNet, side: Side, p: Peer, out: seq<seq<Wire>>, alwaysStream: bool, data: seq<byte>)
    requires ByteUsable(n) && p.cfg == BytePeer(n, side).cfg
    ensures p.cfg.mss > 0 && ByteUsable(BytePut(n, side, p, out))
    ensures CallOp(p, alwaysStream, data).cfg == p.cfg
    ensures ByteRun(BytePut(n, side, p, out), CallActions(side, alwaysStream, data))
         == BytePut(n, side, CallOp(p, alwaysStream, data), out)
  {
    hide WriteOp, ByteStep, BytePut, ByteUsable, BytePeer, ByteRun;
    var len := AsInt(|data|);
    var act := WriteAt(side, alwaysStream, if len < 0 then [] else data[..len]);
    LocalSteps(n, side, p, out, act);
    OneStep(BytePut(n, side, p, out), act);
  }

  /** Running the calls of a write over the network is the write on its end. */
  lemma WriteActionsRun(n: ByteNet, side: Side, data: seq<byte>, now: u32)
    requires ByteUsable(n)
    ensures BytePeer(n, side).cfg.mss > 0
    ensures var p := BytePeer(n, side);
      var (p', out) := WritePeer(p, data, now);
      ByteRun(n, WriteActions(side, p, data, now)) == BytePut(n, side, p', out)
  {
    hide CallOp, CallActions, FlushOp, EncodeAll, Offered, ByteStep, ByteRun, BytePut, EncodeGrams, SentOf, FlushesAtOnce;
    PutNothing(n, side);
    var p := BytePeer(n, side);
    var k, sent := Offered(p.cfg, p.k, |data|), SentOf(p, data);
    var a1 := if k > 0 then CallActions(side, false, data[..k]) else [];
    var p1 := if k > 0 then CallOp(p, false, data[..k]) else p;
    var a2 := if FlushesAtOnce(p, data) then [FlushAt(side, now)] else [];
    var (p2, out) := SendPeer(p, data, now);
    var a3 := if sent < |data| then CallActions(side, true, data[sent..]) else [];
    TwoEnds.RunAppend(n, a1 + a2, a3);
    TwoEnds.RunAppend(n, a1, a2);
    OneStep(n, FlushAt(side, now));
    CallActionsRun(n, side, p, [], false, data[..k]);
    LocalSteps(n, side, p1, [], FlushAt(side, now));
    OneStep(BytePut(n, side, p1, []), FlushAt(side, now));
    CallActionsRun(n, side, p2, out, true, data[sent..]);
    OneStep(BytePut(n, side, p2, out), FlushAt(side, now));
  }

  /**
   The bytes of a write that are accepted are accepted once and in order,
   whatever the split. They are all of them exactly when what is left for the
   append is less than 2^31 bytes: otherwise the cast of that length makes it
   negative or short.
   */
  lemma WriteAddsEachByteOnce(p: Peer, data: seq<byte>, now: u32)
    requires p.cfg.mss > 0
    ensures WritePeer(p, data, now).0.written == p.written + data[..TakenOf(p, data)]
    ensures TakenOf(p, data) == |data| <==> |data| - SentOf(p, data) < 0x8000_0000
    ensures WritePeer(p, data, now).0.read == p.read && WritePeer(p, data, now).0.cfg == p.cfg
  {
    hide SendPeer, SentOf, CallOp, CallRet, I32;
    var sent := SentOf(p, data);
    var q := SendPeer(p, data, now).0;
    SendPeerTells(p, data, now);
    CallTells(q, true, data[sent..]);
    Joined(p.written, data, sent, Max(AsInt(|data| - sent), 0));
  }

  lemma Joined(written: seq<byte>, data: seq<byte>, sent: nat, more: nat)
    requires sent + more <= |data|
    ensures written + data[..sent] + data[sent..][..more] == written + data[..sent + more]
    ensures written + data[..sent] + [] == written + data[..sent]
  {
  }

  /** In particular a write of less than 2^31 bytes is accepted whole, and so is one that fits C's int. */
  lemma IntWritesAreWhole(p: Peer, data: seq<byte>)
    requires p.cfg.mss > 0 && |data| < 0x8000_0000
    ensures TakenOf(p, data) == |data|
  {
    hide SentOf;
  }

  /**
   The session's assertion that ikcp_send succeeds, of what the window offers:
   it holds exactly for what fits int and 127 fragments can carry.
   */
  lemma OfferedIsAcceptedExactly(cfg: Config, k: Kcb, data: seq<byte>)
    requires cfg.mss > 0 && |data| < 0x1_0000_0000
    ensures Accepts(cfg, k, data) <==> |data| < 0x8000_0000 && (cfg.stream || |data| <= 127 * cfg.mss)
  {
    hide Spare, Extend, CutStream, Cut;
    assert |data| < 0x8000_0000 ==> data[..|data|] == data;
    RefusedExactly(cfg.mss, |data|);
  }

  /** The assertion that ikcp_append succeeds holds exactly when the cast leaves what is not negative. */
  lemma AppendSucceedsExactly(cfg: Config, k: Kcb, rest: seq<byte>)
    requires cfg.mss > 0
    ensures CallRet(cfg, k, true, rest) == 0 <==> AsInt(|rest|) >= 0
  {
    hide Spare, Extend, CutStream, Cut, CountOf;
  }

  /** So no write of at most 127 fragments that fits int fails either. */
  lemma ShortWritesAccepted(cfg: Config, k: Kcb, data: seq<byte>)
    requires cfg.mss > 0 && |data| <= 127 * cfg.mss && |data| < 0x8000_0000
    ensures Offered(cfg, k, |data|) <= |data| && Accepts(cfg, k, data[..Offered(cfg, k, |data|)])
    ensures forall k', n :: 0 <= n <= |data| ==> CallRet(cfg, k', true, data[n..]) == 0
  {
    hide CallRet, Offered;
    OfferedIsAcceptedExactly(cfg, k, data[..Offered(cfg, k, |data|)]);
    forall k', n | 0 <= n <= |data|
      ensures CallRet(cfg, k', true, data[n..]) == 0
    {
      AppendSucceedsExactly(cfg, k', data[n..]);
    }
  }

  /** A send window of more than 127 segments can offer a message that is refused. */
  lemma OfferedCanBeRefused(conv: u32)
    ensures var cfg := Initialize(conv, FAST).value;
      var k := Fresh(cfg);
      var data := seq(128 * cfg.mss, (i: int) => 0 as byte);
      Offered(cfg, k, |data|) == |data| && !Accepts(cfg, k, data)
  {
    var cfg := Initialize(conv, FAST).value;
    OfferedIsAcceptedExactly(cfg, Fresh(cfg), seq(128 * cfg.mss, (i: int) => 0 as byte));
  }

  /** One write that is not accepted whole: 2^31 bytes are left for the append, and all of them are dropped. */
  lemma HugeWriteIsCut(conv: u32, data: seq<byte>)
    requires |data| == 0x8000_0000 + 64 * 1367
    ensures var p := NewPeer(Initialize(conv, NORMAL).value);
      p.cfg.mss > 0 && TakenOf(p, data) == 64 * 1367
  {
    var p := NewPeer(Initialize(conv, NORMAL).value);
    var n := Offered(p.cfg, p.k, |data|);
    assert n == 64 * 1367;
    OfferedIsAcceptedExactly(p.cfg, p.k, data[..n]);
  }

  lemma CountFits(mss: int, len: nat, segs: nat)
    requires mss > 0 && 0 < len <= segs * mss
    ensures CountOf(mss, len) <= segs
  {
    if len > mss {
      DivAtLeast(len + mss - 1, mss, segs + 1);
      assert mss * (segs + 1) == segs * mss + mss;
    }
  }

  lemma CountMonotone(mss: int, a: nat, b: nat)
    requires mss > 0 && a <= b
    ensures CountOf(mss, a) <= CountOf(mss, b)
  {
    if a > mss {
      DivAtLeast(b + mss - 1, mss, (a + mss - 1) / mss);
      DivAtLeast(a + mss - 1, mss, (a + mss - 1) / mss);
    } else if b > mss {
      DivAtLeast(b + mss - 1, mss, 1);
    }
  }

  lemma WriteGrowsBy(mss: int, stream: bool, que: seq<Frag>, data: seq<byte>)
    requires mss > 0
    ensures |Enqueue(mss, stream, que, data).que| <= |que| + CountOf(mss, |data|)
  {
    hide CountOf, CutStream, Cut;
    CutCount(mss, data);
    if stream {
      var rest := data[Min(|data|, Spare(mss, que))..];
      StreamCount(mss, rest);
      CountMonotone(mss, |rest|, |data|);
      CountPositive(mss, |data|);
    }
  }

  lemma CountPositive(mss: int, len: nat)
    requires mss > 0
    ensures CountOf(mss, len) >= 1
  {
    if len > mss {
      DivAtLeast(len + mss - 1, mss, 1);
    }
  }

  /** The message part of a write never takes the backlog past the peer's and the own window. */
  lemma OfferFitsWindow(cfg: Config, k: Kcb, data: seq<byte>)
    requires cfg.mss > 0 && k.rmtWnd >= 0
    requires 0 < Offered(cfg, k, |data|)
    ensures WaitSnd(Write(cfg, k, false, data[..Offered(cfg, k, |data|)]).0) <= Min(cfg.sndWnd, k.rmtWnd)
  {
    hide Enqueue, CountOf;
    var n := Offered(cfg, k, |data|);
    var segs := AvailableSegs(cfg, k, false);
    SmallerThan(segs * cfg.mss);
    CountFits(cfg.mss, n, segs);
    WriteGrowsBy(cfg.mss, cfg.stream, k.snd.que, data[..n]);
  }

  lemma SmallerThan(x: nat)
    ensures U32(x) <= x
  {
  }

  // ---------------------------------------------------------------------
  // Reading
  // ---------------------------------------------------------------------

  /** Every complete message, taken one after the other. */
  function TakeAll(cfg: Config, k: Kcb): (Kcb, seq<seq<byte>>)
    decreases |k.rcv.que| + |k.rcv.buf|
  {
    var size := PeekSize(k.rcv.que);
    if size < 0 then (k, [])
    else
      var (k1, _, data) := Recv(Ring32, cfg, k, size);
      RecvShrinks(cfg, k);
      var (k2, more) := TakeAll(cfg, k1);
      (k2, [data] + more)
  }

  /** A read takes the front message out: that many entries leave the receiver. */
  lemma RecvShrinks(cfg: Config, k: Kcb)
    requires PeekSize(k.rcv.que) >= 0
    ensures var (k', ret, data) := Recv(Ring32, cfg, k, PeekSize(k.rcv.que));
      && ret == PeekSize(k.rcv.que) == |data|
      && data == Bytes(k.rcv.que[..FrontCount(k.rcv.que)])
      && k'.rcv == Drain(Ring32, cfg.rcvWnd, k.rcv.(que := k.rcv.que[FrontCount(k.rcv.que)..]))
      && |k'.rcv.que| + |k'.rcv.buf| < |k.rcv.que| + |k.rcv.buf|
  {
    hide Bytes, FrontCount, U32;
    DrainSplits(cfg.rcvWnd, k.rcv.(que := k.rcv.que[FrontCount(k.rcv.que)..]));
  }

  /** The ordered run a receiver holds: what is queued, then what is buffered. */
  function Held32(k: Rcv): seq<RcvSeg> {
    k.que + k.buf
  }

  /** Draining only moves the line between queue and buffer. */
  lemma {:induction false} DrainSplits(wnd: int, k: Rcv)
    ensures Held32(Drain(Ring32, wnd, k)) == Held32(k)
    ensures |Drain(Ring32, wnd, k).que| >= |k.que|
    decreases |k.buf|
  {
    hide U32;
    if Deliverable(wnd, k) {
      DrainSplits(wnd, MoveHead(Ring32, k));
      assert k.que + [k.buf[0]] + k.buf[1..] == k.que + k.buf;
    }
  }

  /**
   The drain loop leaves no complete message behind, and conserves bytes: what
   it hands over, then what is still held, is what was held, in order.
   */
  lemma {:induction false} TakeAllConserves(cfg: Config, k: Kcb)
    ensures var (k', ms) := TakeAll(cfg, k);
      && PeekSize(k'.rcv.que) < 0
      && Flatten(ms) + Bytes(Held32(k'.rcv)) == Bytes(Held32(k.rcv))
      && k'.snd == k.snd && k'.acks == k.acks && k'.rmtWnd == k.rmtWnd
    decreases |k.rcv.que| + |k.rcv.buf|
  {
    hide Recv, PeekSize, FrontCount, Drain, Bytes;
    if PeekSize(k.rcv.que) >= 0 {
      var k1 := Recv(Ring32, cfg, k, PeekSize(k.rcv.que)).0;
      RecvShrinks(cfg, k);
      RecvKeepsRest(cfg, k, PeekSize(k.rcv.que));
      OneTaken(cfg, k);
      TakeAllConserves(cfg, k1);
      var (k2, more) := TakeAll(cfg, k1);
      var data := Bytes(k.rcv.que[..FrontCount(k.rcv.que)]);
      assert ([data] + more)[1..] == more;
      assert Flatten([data] + more) == data + Flatten(more);
      assert data + Flatten(more) + Bytes(Held32(k2.rcv)) == data + (Flatten(more) + Bytes(Held32(k2.rcv)));
    }
  }

  lemma RecvKeepsRest(cfg: Config, k: Kcb, len: int)
    ensures var k' := Recv(Ring32, cfg, k, len).0;
      k'.snd == k.snd && k'.acks == k.acks && k'.rmtWnd == k.rmtWnd
  {
  }

  lemma OneTaken(cfg: Config, k: Kcb)
    ensures var n := FrontCount(k.rcv.que);
      var rest := Drain(Ring32, cfg.rcvWnd, k.rcv.(que := k.rcv.que[n..]));
      Bytes(k.rcv.que[..n]) + Bytes(Held32(rest)) == Bytes(Held32(k.rcv))
  {
    hide Bytes, Drain, FrontCount;
    var n := FrontCount(k.rcv.que);
    DrainSplits(cfg.rcvWnd, k.rcv.(que := k.rcv.que[n..]));
    BytesOfBoth(k.rcv.que[..n], k.rcv.que[n..] + k.rcv.buf);
    assert k.rcv.que[..n] + (k.rcv.que[n..] + k.rcv.buf) == k.rcv.que + k.rcv.buf;
  }

  /** The same on one end with its history: read until no message is complete. */
  function ReadPeer(p: Peer): Peer
    decreases |p.k.rcv.que| + |p.k.rcv.buf|
  {
    var size := PeekSize(p.k.rcv.que);
    if size < 0 then p
    else
      RecvShrinks(p.cfg, p.k);
      ReadOneTells(p);
      ReadPeer(RecvOp(Ring32, p, size))
  }

  lemma ReadOneTells(p: Peer)
    requires PeekSize(p.k.rcv.que) >= 0
    ensures var q := RecvOp(Ring32, p, PeekSize(p.k.rcv.que));
      var (k', _, data) := Recv(Ring32, p.cfg, p.k, PeekSize(p.k.rcv.que));
      && q.k == k' && q.cfg == p.cfg && q.written == p.written && q.read == p.read + data && q.got == p.got + [data]
  {
    hide Recv, PeekSize, FrontCount;
    RecvShrinks(p.cfg, p.k);
  }

  /** What is read is what the drain loop takes. */
  lemma {:induction false} ReadPeerTakesAll(p: Peer)
    ensures var q := ReadPeer(p);
      var (k', ms) := TakeAll(p.cfg, p.k);
      && q.k == k' && q.cfg == p.cfg && q.written == p.written && q.read == p.read + Flatten(ms) && q.got == p.got + ms
    decreases |p.k.rcv.que| + |p.k.rcv.buf|
  {
    hide Recv, PeekSize, RecvOp;
    if PeekSize(p.k.rcv.que) >= 0 {
      RecvShrinks(p.cfg, p.k);
      ReadOneTells(p);
      var q := RecvOp(Ring32, p, PeekSize(p.k.rcv.que));
      ReadPeerTakesAll(q);
      var data, more := Recv(Ring32, p.cfg, p.k, PeekSize(p.k.rcv.que)).2, TakeAll(p.cfg, q.k).1;
      OneMoreMessage(p.read, p.got, data, more);
    } else {
      assert p.read + Flatten([]) == p.read && p.got + [] == p.got;
    }
  }

  lemma OneMoreMessage(read: seq<byte>, got: seq<seq<byte>>, data: seq<byte>, more: seq<seq<byte>>)
    ensures read + data + Flatten(more) == read + Flatten([data] + more)
    ensures got + [data] + more == got + ([data] + more)
  {
    assert ([data] + more)[1..] == more;
    assert read + data + Flatten(more) == read + (data + Flatten(more));
  }

  /** ProcessPacketInLoopThread on one end of an open session. */
  function PacketPeer(p: Peer, body: seq<byte>): Peer
    requires p.cfg.mss > 0
  {
    if InputBytes(p.cfg, p.k, body).ret < 0 then ByteInput(p, body) else ReadPeer(ByteInput(p, body))
  }

  // ---------------------------------------------------------------------
  // Runs of two sessions
  // ---------------------------------------------------------------------

  /** Two sessions, each open or closed for good, and the network between them. */
  datatype Sessions = Sessions(net: ByteNet, closedA: bool, closedB: bool)

  predicate IsClosed(t: Sessions, side: Side) {
    if side.A? then t.closedA else t.closedB
  }

  function Shut(t: Sessions, side: Side): Sessions {
    if side.A? then t.(closedA := true) else t.(closedB := true)
  }

  datatype SessionAct =
    | UserWrites(side: Side, data: seq<byte>, now: u32)
    | PacketArrives(side: Side, i: nat)
    | TimerFires(side: Side, now: u32)
    | Closes(side: Side, lastFlush: bool, now: u32)

  function DrainActions(side: Side, cfg: Config, k: Kcb): seq<Action>
    decreases |k.rcv.que| + |k.rcv.buf|
  {
    var size := PeekSize(k.rcv.que);
    if size < 0 then []
    else
      RecvShrinks(cfg, k);
      [RecvAt(side, size)] + DrainActions(side, cfg, Recv(Ring32, cfg, k, size).0)
  }

  /** The calls that a packet makes: one input, and then a read for every complete message. */
  function PacketActions(side: Side, p: Peer, i: nat, body: seq<byte>): seq<Action>
    requires p.cfg.mss > 0
  {
    var r := InputBytes(p.cfg, p.k, body);
    [InputAt(side, i)] + (if r.ret < 0 then [] else DrainActions(side, p.cfg, r.k))
  }

  /** The calls on the engine that one session event makes; a closed session makes none. */
  function ActionsOf(t: Sessions, act: SessionAct): seq<Action>
    requires ByteUsable(t.net)
  {
    var p := BytePeer(t.net, act.side);
    if IsClosed(t, act.side) then []
    else
      match act
      case UserWrites(side, data, now) => WriteActions(side, p, data, now)
      case PacketArrives(side, i) =>
        var box := ByteSent(t.net, Other(side));
        if i < |box| then PacketActions(side, p, i, box[i]) else []
      case TimerFires(side, now) => if p.k.dead then [] else [FlushAt(side, now)]
      case Closes(side, lastFlush, now) => if lastFlush then [FlushAt(side, now)] else []
  }

  /** Close, or a timer that finds the link dead. */
  predicate ClosesNow(t: Sessions, act: SessionAct) {
    act.Closes? || (act.TimerFires? && BytePeer(t.net, act.side).k.dead)
  }

  function SessionStep(t: Sessions, act: SessionAct): (t': Sessions)
    requires ByteUsable(t.net)
    ensures ByteUsable(t'.net)
  {
    var t' := t.(net := ByteRun(t.net, ActionsOf(t, act)));
    if ClosesNow(t, act) then Shut(t', act.side) else t'
  }

  function SessionRun(t: Sessions, acts: seq<SessionAct>): (t': Sessions)
    requires ByteUsable(t.net)
    ensures ByteUsable(t'.net)
    decreases |acts|
  {
    if acts == [] then t else SessionRun(SessionStep(t, acts[0]), acts[1..])
  }

  /** The event closes the session of that side: its user, or a timer that finds its link dead. */
  predicate EndsSession(t: Sessions, act: SessionAct, side: Side) {
    act.side == side && (act.Closes? || (act.TimerFires? && BytePeer(t.net, side).k.dead))
  }

  /** In every run a session is closed exactly when some event has closed it: nothing else does, and nothing reopens it. */
  lemma {:induction false} ClosedExactly(t: Sessions, side: Side, acts: seq<SessionAct>)
    requires ByteUsable(t.net)
    ensures IsClosed(SessionRun(t, acts), side) <==>
      IsClosed(t, side) || exists i :: 0 <= i < |acts| && EndsSession(SessionRun(t, acts[..i]), acts[i], side)
    decreases |acts|
  {
    hide ActionsOf, ByteRun, ByteUsable, EndsSession;
    if acts != [] {
      var u, rest := SessionStep(t, acts[0]), acts[1..];
      StepCloses(t, side, acts[0]);
      ClosedExactly(u, side, rest);
      assert SessionRun(t, acts[..0]) == t;
      forall i | 0 <= i < |rest|
        ensures SessionRun(t, acts[..i + 1]) == SessionRun(u, rest[..i]) && rest[i] == acts[i + 1]
      {
        assert acts[..i + 1][1..] == rest[..i];
      }
      if i :| 0 <= i < |rest| && EndsSession(SessionRun(u, rest[..i]), rest[i], side) {
        assert EndsSession(SessionRun(t, acts[..i + 1]), acts[i + 1], side);
      }
      if i :| 0 <= i < |acts| && EndsSession(SessionRun(t, acts[..i]), acts[i], side) {
        if i > 0 {
          assert EndsSession(SessionRun(u, rest[..i - 1]), rest[i - 1], side);
        }
      }
    }
  }

  lemma StepCloses(t: Sessions, side: Side, act: SessionAct)
    requires ByteUsable(t.net)
    ensures IsClosed(SessionStep(t, act), side) <==> IsClosed(t, side) || EndsSession(t, act, side)
  {
    hide ActionsOf, ByteRun;
  }

  /** Everything a run of sessions asks of the engines, in order. */
  function AllActions(t: Sessions, acts: seq<SessionAct>): seq<Action>
    requires ByteUsable(t.net)
    decreases |acts|
  {
    if acts == [] then []
    else ActionsOf(t, acts[0]) + AllActions(SessionStep(t, acts[0]), acts[1..])
  }

  lemma {:induction false} SessionRunIsByteRun(t: Sessions, acts: seq<SessionAct>)
    requires ByteUsable(t.net)
    ensures SessionRun(t, acts).net == ByteRun(t.net, AllActions(t, acts))
    decreases |acts|
  {
    hide ActionsOf, ByteStep, ByteUsable, ClosesNow;
    if acts != [] {
      TwoEnds.RunAppend(t.net, ActionsOf(t, acts[0]), AllActions(SessionStep(t, acts[0]), acts[1..]));
      SessionRunIsByteRun(SessionStep(t, acts[0]), acts[1..]);
    }
  }

  lemma OneRead(n: ByteNet, side: Side, p: Peer, size: int)
    requires ByteUsable(n) && p.cfg == BytePeer(n, side).cfg
    ensures var m := BytePut(n, side, p, []);
      ByteUsable(m) && ByteStep(m, RecvAt(side, size)) == BytePut(n, side, RecvOp(Ring32, p, size), [])
  {
    hide Recv, FrontCount, EncodeAll;
  }

  /** Running the reads of the drain loop is the drain loop on its end. */
  lemma {:induction false} DrainActionsRun(n: ByteNet, side: Side, p: Peer)
    requires ByteUsable(n) && p.cfg == BytePeer(n, side).cfg
    ensures ByteUsable(BytePut(n, side, p, []))
    ensures ByteRun(BytePut(n, side, p, []), DrainActions(side, p.cfg, p.k)) == BytePut(n, side, ReadPeer(p), [])
    decreases |p.k.rcv.que| + |p.k.rcv.buf|
  {
    hide Recv, PeekSize, ByteStep, RecvOp, BytePut, ByteUsable, BytePeer;
    OneRead(n, side, p, PeekSize(p.k.rcv.que));
    if PeekSize(p.k.rcv.que) >= 0 {
      var size := PeekSize(p.k.rcv.que);
      RecvShrinks(p.cfg, p.k);
      ReadOneTells(p);
      var q := RecvOp(Ring32, p, size);
      var rest := DrainActions(side, p.cfg, q.k);
      DrainActionsRun(n, side, q);
      assert ([RecvAt(side, size)] + rest)[1..] == rest;
    }
  }

  /** Running the calls of a packet is what the packet does to its end. */
  lemma PacketActionsRun(n: ByteNet, side: Side, i: nat)
    requires ByteUsable(n) && i < |ByteSent(n, Other(side))|
    ensures BytePeer(n, side).cfg.mss > 0
    ensures var p, body := BytePeer(n, side), ByteSent(n, Other(side))[i];
      ByteRun(n, PacketActions(side, p, i, body)) == BytePut(n, side, PacketPeer(p, body), [])
  {
    hide InputBytes, ReadPeer, EncodeAll, DrainActions, ByteRun;
    PutNothing(n, side);
    var p, body := BytePeer(n, side), ByteSent(n, Other(side))[i];
    var q := ByteInput(p, body);
    OneStep(n, InputAt(side, i));
    assert ByteStep(n, InputAt(side, i)) == BytePut(n, side, q, []);
    if InputBytes(p.cfg, p.k, body).ret >= 0 {
      TwoEnds.RunAppend(n, [InputAt(side, i)], DrainActions(side, p.cfg, q.k));
      DrainActionsRun(n, side, q);
    } else {
      assert [InputAt(side, i)] + [] == [InputAt(side, i)];
    }
  }

  /** The bytes the user of one side has handed to Write. */
  function Handed(side: Side, acts: seq<SessionAct>): seq<byte>
    decreases |acts|
  {
    if acts == [] then []
    else
      (if acts[0].UserWrites? && acts[0].side == side then acts[0].data else []) + Handed(side, acts[1..])
  }

  /** What a session accepts of a write: nothing when it is closed. */
  function TakenAt(t: Sessions, side: Side, data: seq<byte>): seq<byte>
    requires ByteUsable(t.net)
  {
    var p := BytePeer(t.net, side);
    if IsClosed(t, side) then [] else data[..TakenOf(p, data)]
  }

  /** The part of them that the sessions have accepted. */
  function Accepted(t: Sessions, side: Side, acts: seq<SessionAct>): seq<byte>
    requires ByteUsable(t.net)
    decreases |acts|
  {
    if acts == [] then []
    else
      (if acts[0].UserWrites? && acts[0].side == side then TakenAt(t, side, acts[0].data) else [])
      + Accepted(SessionStep(t, acts[0]), side, acts[1..])
  }

  lemma StaysClosed(t: Sessions, side: Side, act: SessionAct)
    requires ByteUsable(t.net) && IsClosed(t, side)
    ensures IsClosed(SessionStep(t, act), side)
  {
    hide ActionsOf, ByteRun, ByteUsable;
  }

  lemma PrefixBehind(head: seq<byte>, a: seq<byte>, b: seq<byte>)
    requires a <= b
    ensures head + a <= head + b
  {
  }

  /** Every write fits C's int. */
  predicate IntWrites(side: Side, acts: seq<SessionAct>) {
    forall i :: 0 <= i < |acts| && acts[i].UserWrites? && acts[i].side == side ==> |acts[i].data| < 0x8000_0000
  }

  lemma TakenWhole(t: Sessions, side: Side, data: seq<byte>)
    requires ByteUsable(t.net)
    ensures IsClosed(t, side) ==> TakenAt(t, side, data) == []
    ensures !IsClosed(t, side) && |data| < 0x8000_0000 ==> TakenAt(t, side, data) == data
  {
    hide TakenOf, IsClosed;
    if |data| < 0x8000_0000 {
      IntWritesAreWhole(BytePeer(t.net, side), data);
    }
  }

  /**
   While every write fits int, what is accepted is the beginning of what is
   handed over: a session closes for good.
   */
  lemma {:induction false} AcceptedIsPrefix(t: Sessions, side: Side, acts: seq<SessionAct>)
    requires ByteUsable(t.net) && IntWrites(side, acts)
    ensures Accepted(t, side, acts) <= Handed(side, acts)
    ensures IsClosed(t, side) ==> Accepted(t, side, acts) == []
    decreases |acts|
  {
    hide SessionStep, ByteUsable, IsClosed, TakenAt;
    if acts != [] {
      assert IntWrites(side, acts[1..]) by {
        assert forall i :: 0 <= i < |acts| - 1 ==> acts[1..][i] == acts[i + 1];
      }
      AcceptedIsPrefix(SessionStep(t, acts[0]), side, acts[1..]);
      var head := if acts[0].UserWrites? then acts[0].data else [];
      TakenWhole(t, side, head);
      PrefixBehind(head, Accepted(SessionStep(t, acts[0]), side, acts[1..]), Handed(side, acts[1..]));
      if IsClosed(t, side) {
        StaysClosed(t, side, acts[0]);
      }
    }
  }

  predicate Writes(act: Action) {
    act.WriteAt?
  }

  /** Only writes add to what is written. */
  lemma {:induction false} OthersWriteNothing(n: ByteNet, acts: seq<Action>)
    requires ByteUsable(n) && forall i :: 0 <= i < |acts| ==> !Writes(acts[i])
    ensures ByteRun(n, acts).a.written == n.a.written && ByteRun(n, acts).b.written == n.b.written
    decreases |acts|
  {
    hide ByteUsable;
    if acts != [] {
      assert !Writes(acts[0]);
      StepWritesNothing(n, acts[0]);
      OthersWriteNothing(ByteStep(n, acts[0]), acts[1..]);
    }
  }

  lemma StepWritesNothing(n: ByteNet, act: Action)
    requires ByteUsable(n) && !act.WriteAt?
    ensures ByteStep(n, act).a.written == n.a.written && ByteStep(n, act).b.written == n.b.written
  {
    hide InputBytes, Flush, Recv, EncodeAll, MoveCount, AckWires, Pack;
  }

  lemma {:induction false} DrainIsReads(side: Side, cfg: Config, k: Kcb)
    ensures forall i :: 0 <= i < |DrainActions(side, cfg, k)| ==> !Writes(DrainActions(side, cfg, k)[i])
    decreases |k.rcv.que| + |k.rcv.buf|
  {
    hide Recv, PeekSize;
    if PeekSize(k.rcv.que) >= 0 {
      RecvShrinks(cfg, k);
      DrainIsReads(side, cfg, Recv(Ring32, cfg, k, PeekSize(k.rcv.que)).0);
    }
  }

  /** Only the user of an open session writes. */
  lemma OtherActsWriteNothing(t: Sessions, act: SessionAct)
    requires ByteUsable(t.net) && (!act.UserWrites? || IsClosed(t, act.side))
    ensures forall i :: 0 <= i < |ActionsOf(t, act)| ==> !Writes(ActionsOf(t, act)[i])
  {
    hide WriteActions, InputBytes, DrainActions, ByteUsable;
    if act.PacketArrives? {
      var box := ByteSent(t.net, Other(act.side));
      if act.i < |box| {
        var p := BytePeer(t.net, act.side);
        UsablePeer(t.net, act.side);
        DrainIsReads(act.side, p.cfg, InputBytes(p.cfg, p.k, box[act.i]).k);
      }
    }
  }

  lemma StepAccepts(t: Sessions, act: SessionAct)
    requires ByteUsable(t.net)
    ensures SessionStep(t, act).net.a.written == t.net.a.written + Accepted(t, A, [act])
    ensures SessionStep(t, act).net.b.written == t.net.b.written + Accepted(t, B, [act])
  {
    hide ByteRun, WritePeer, WriteActions, PacketActions, EncodeAll, ByteUsable, TakenOf;
    OneAccepted(t, act);
    if act.UserWrites? && !IsClosed(t, act.side) {
      WriteActionsRun(t.net, act.side, act.data, act.now);
      WriteAddsEachByteOnce(BytePeer(t.net, act.side), act.data, act.now);
    } else {
      OtherActsWriteNothing(t, act);
      OthersWriteNothing(t.net, ActionsOf(t, act));
      assert t.net.a.written + [] == t.net.a.written && t.net.b.written + [] == t.net.b.written;
    }
  }

  lemma UsablePeer(n: ByteNet, side: Side)
    requires ByteUsable(n)
    ensures BytePeer(n, side).cfg.mss > 0
  {
  }

  lemma OneAccepted(t: Sessions, act: SessionAct)
    requires ByteUsable(t.net)
    ensures forall side ::
      Accepted(t, side, [act]) == (if act.UserWrites? && act.side == side then TakenAt(t, side, act.data) else [])
  {
    hide ActionsOf, ByteRun, ByteUsable, TakenAt;
    forall side
      ensures Accepted(t, side, [act]) == (if act.UserWrites? && act.side == side then TakenAt(t, side, act.data) else [])
    {
      assert [act][1..] == [];
      assert Accepted(SessionStep(t, act), side, []) == [];
    }
  }

  lemma Behind(a: seq<byte>, b: seq<byte>, c: seq<byte>)
    ensures a + b + c == a + (b + c)
  {
  }

  lemma AcceptedSplits(t: Sessions, side: Side, acts: seq<SessionAct>)
    requires ByteUsable(t.net) && acts != []
    ensures Accepted(t, side, acts)
         == Accepted(t, side, [acts[0]]) + Accepted(SessionStep(t, acts[0]), side, acts[1..])
  {
    hide SessionStep, ByteUsable, TakenAt;
    OneAccepted(t, acts[0]);
  }

  lemma {:induction false} RunAccepts(t: Sessions, acts: seq<SessionAct>)
    requires ByteUsable(t.net)
    ensures SessionRun(t, acts).net.a.written == t.net.a.written + Accepted(t, A, acts)
    ensures SessionRun(t, acts).net.b.written == t.net.b.written + Accepted(t, B, acts)
    decreases |acts|
  {
    hide SessionStep, ByteUsable, TakenAt;
    if acts != [] {
      var u := SessionStep(t, acts[0]);
      AcceptedSplits(t, A, acts);
      AcceptedSplits(t, B, acts);
      StepAccepts(t, acts[0]);
      RunAccepts(u, acts[1..]);
      hide Accepted, SessionRun;
      Behind(t.net.a.written, Accepted(t, A, [acts[0]]), Accepted(u, A, acts[1..]));
      Behind(t.net.b.written, Accepted(t, B, [acts[0]]), Accepted(u, B, acts[1..]));
    }
  }

  lemma CallsAreFull(side: Side, alwaysStream: bool, data: seq<byte>)
    requires alwaysStream || 0 < |data| < 0x1_0000_0000
    ensures forall i :: 0 <= i < |CallActions(side, alwaysStream, data)| ==> FullAct(CallActions(side, alwaysStream, data)[i])
  {
  }

  lemma WritesAreFull(side: Side, p: Peer, data: seq<byte>, now: u32)
    requires p.cfg.mss > 0
    ensures forall i :: 0 <= i < |WriteActions(side, p, data, now)| ==> FullAct(WriteActions(side, p, data, now)[i])
  {
    hide CallActions, Offered, SentOf, FlushesAtOnce;
    var n, sent := Offered(p.cfg, p.k, |data|), SentOf(p, data);
    OfferedInRange(p.cfg, p.k, |data|);
    if n > 0 {
      CallsAreFull(side, false, data[..n]);
    }
    CallsAreFull(side, true, data[sent..]);
  }

  /** No session event writes an empty message. */
  lemma ActsAreFull(t: Sessions, act: SessionAct)
    requires ByteUsable(t.net)
    ensures forall i :: 0 <= i < |ActionsOf(t, act)| ==> FullAct(ActionsOf(t, act)[i])
  {
    hide WriteActions, PacketActions, ByteUsable;
    UsablePeer(t.net, act.side);
    if act.UserWrites? && !IsClosed(t, act.side) {
      WritesAreFull(act.side, BytePeer(t.net, act.side), act.data, act.now);
    } else {
      OtherActsWriteNothing(t, act);
      assert forall i :: 0 <= i < |ActionsOf(t, act)| ==> !Writes(ActionsOf(t, act)[i]);
    }
  }

  lemma {:induction false} AllAreFull(t: Sessions, acts: seq<SessionAct>)
    requires ByteUsable(t.net)
    ensures forall i :: 0 <= i < |AllActions(t, acts)| ==> FullAct(AllActions(t, acts)[i])
    decreases |acts|
  {
    hide ActionsOf, SessionStep, ByteUsable, FullAct;
    if acts != [] {
      ActsAreFull(t, acts[0]);
      AllAreFull(SessionStep(t, acts[0]), acts[1..]);
    }
  }

  /** Two new sessions of one conversation. */
  function Opened(cfgA: Config, cfgB: Config): Sessions {
    Sessions(ByteNet(NewPeer(cfgA), NewPeer(cfgB), [], []), false, false)
  }

  lemma OpenedUsable(cfgA: Config, cfgB: Config)
    requires ConfigOk(cfgA) && ConfigOk(cfgB)
    ensures ByteUsable(Opened(cfgA, cfgB).net)
  {
  }

  /**
   What a run of two sessions promises: each user is given a prefix of what the
   other's session has accepted, which is a prefix of what that user handed
   over while every write fits int; no message is empty, as the session
   asserts; and both directions are reliable.
   */
  ghost predicate SessionsDeliver(t: Sessions, acts: seq<SessionAct>)
    requires ByteUsable(t.net)
  {
    var u := SessionRun(t, acts);
    && u.net.b.read <= Accepted(t, A, acts) && (IntWrites(A, acts) ==> Accepted(t, A, acts) <= Handed(A, acts))
    && u.net.a.read <= Accepted(t, B, acts) && (IntWrites(B, acts) ==> Accepted(t, B, acts) <= Handed(B, acts))
    && Reliable(u.net.a, u.net.b) && Reliable(u.net.b, u.net.a)
    && NoneEmpty(u.net.a) && NoneEmpty(u.net.b)
  }

  /** Two new sessions whose directions are reliable keep the promise. */
  lemma ReliableDelivers(cfgA: Config, cfgB: Config, acts: seq<SessionAct>)
    requires ConfigOk(cfgA) && ConfigOk(cfgB) && cfgA.conv == cfgB.conv
    requires var u := SessionRun(Opened(cfgA, cfgB), acts); Reliable(u.net.a, u.net.b) && Reliable(u.net.b, u.net.a)
    ensures SessionsDeliver(Opened(cfgA, cfgB), acts)
  {
    hide SessionRun, Accepted, Handed, Reliable, IntWrites, AllActions, ByteRun, NoneEmpty, ConfigOk;
    var t := Opened(cfgA, cfgB);
    OpenedUsable(cfgA, cfgB);
    RunAccepts(t, acts);
    PrefixRead(t, acts);
    SessionRunIsByteRun(t, acts);
    AllAreFull(t, acts);
    NobodyReadsEmpty(cfgA, cfgB, AllActions(t, acts));
    if IntWrites(A, acts) {
      AcceptedIsPrefix(t, A, acts);
    }
    if IntWrites(B, acts) {
      AcceptedIsPrefix(t, B, acts);
    }
    assert [] + Accepted(t, A, acts) == Accepted(t, A, acts) && [] + Accepted(t, B, acts) == Accepted(t, B, acts);
  }

  lemma PrefixRead(t: Sessions, acts: seq<SessionAct>)
    requires ByteUsable(t.net)
    requires var u := SessionRun(t, acts); Reliable(u.net.a, u.net.b) && Reliable(u.net.b, u.net.a)
    ensures var u := SessionRun(t, acts); u.net.b.read <= u.net.a.written && u.net.a.read <= u.net.b.written
  {
    hide SessionRun, NothingForgotten, PeekSize, ByteUsable, Messages;
  }

  /**
   End-to-end safety of two sessions: whatever the users write, whichever
   datagrams arrive, how often and in what order, whenever the timers fire and
   whenever a session closes or finds its link dead, as long as no datagram
   outlives half the sequence space.
   */
  lemma EverySessionRunDelivers(cfgA: Config, cfgB: Config, acts: seq<SessionAct>)
    requires ConfigOk(cfgA) && ConfigOk(cfgB) && cfgA.conv == cfgB.conv
    requires TimelyRun(Start(cfgA, cfgB), AllActions(Opened(cfgA, cfgB), acts))
    ensures SessionsDeliver(Opened(cfgA, cfgB), acts)
  {
    hide TimelyRun, SessionRun, ByteRun, AllActions, Reliable, SessionsDeliver;
    var start := Opened(cfgA, cfgB);
    SessionRunIsByteRun(start, acts);
    EveryByteRunDelivers(cfgA, cfgB, AllActions(start, acts));
    ReliableDelivers(cfgA, cfgB, acts);
  }

  /** A write that does not fit int leaves a gap: the next one follows behind what was dropped. */
  lemma HugeWriteLeavesGap(conv: u32, now: u32)
    ensures var cfg := Initialize(conv, NORMAL).value;
      var zeros := seq(0x8000_0000 + 64 * 1367, (i: int) => 0 as byte);
      var acts := [UserWrites(A, zeros, now), UserWrites(A, [1], now)];
      cfg.mss > 0 && !(Accepted(Opened(cfg, cfg), A, acts) <= Handed(A, acts))
  {
    hide SessionStep, TakenOf;
    BothModesAreSound(conv);
    var cfg := Initialize(conv, NORMAL).value;
    var zeros := seq(0x8000_0000 + 64 * 1367, (i: int) => 0 as byte);
    var acts := [UserWrites(A, zeros, now), UserWrites(A, [1], now)];
    HugeWriteIsCut(conv, zeros);
    var t := Opened(cfg, cfg);
    var u := SessionStep(t, acts[0]);
    OpenAfterWrite(t, A, zeros, now);
    TakenWhole(u, A, [1]);
    assert acts[1..] == [acts[1]] && acts[1..][1..] == [];
    OneAccepted(u, acts[1]);
    var taken := Accepted(t, A, acts);
    assert taken == zeros[..64 * 1367] + [1];
    assert taken[64 * 1367] == 1 && Handed(A, acts)[64 * 1367] == 0;
  }

  lemma OpenAfterWrite(t: Sessions, side: Side, data: seq<byte>, now: u32)
    requires ByteUsable(t.net)
    ensures IsClosed(SessionStep(t, UserWrites(side, data, now)), side) == IsClosed(t, side)
  {
    hide ActionsOf, ByteRun, ByteUsable;
  }
}
