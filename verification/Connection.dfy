/**
 Two control blocks and a network that may lose, duplicate and reorder the
 datagrams they send. A run is any sequence of actions: every datagram ever
 sent stays on record, and an input action picks any of them.
 */
module Connection {
  import opened SerialArith
  import opened Receiver
  import opened Sender
  import opened Codec
  import opened Fragments
  import opened Engine
  import opened EngineInvariant
  import opened Reassembly
  import opened Retention

  /** One end: its control block, and the history of its user. */
  datatype Peer = Peer(
    cfg: Config, k: Kcb,
    log: seq<Frag>, written: seq<byte>, said: seq<seq<byte>>, whole: bool,
    taken: nat, read: seq<byte>, got: seq<seq<byte>>)

  function TxOf(p: Peer): Tx {
    Tx(p.k.snd, p.log, p.written, p.said, p.whole)
  }

  function RxOf(p: Peer): Rx {
    Rx(p.k.rcv, p.taken, p.read, p.got)
  }

  function NewPeer(cfg: Config): Peer {
    Peer(cfg, Fresh(cfg), [], [], [], true, 0, [], [])
  }

  // ---------------------------------------------------------------------
  // The operations of one end
  // ---------------------------------------------------------------------

  function WriteOp(p: Peer, alwaysStream: bool, data: seq<byte>): Peer
    requires p.cfg.mss > 0
  {
    var (k, ret) := Write(p.cfg, p.k, alwaysStream, data);
    if ret != 0 then p.(k := k)
    else
      p.(k := k, written := p.written + data, said := p.said + [data],
         whole := p.whole && !(p.cfg.stream || alwaysStream))
  }

  /** ikcp_recv with len < 0 only peeks, so the user has then read nothing for good. */
  function RecvOp(r: Ring, p: Peer, len: int): Peer {
    var (k, ret, data) := Recv(r, p.cfg, p.k, len);
    if ret < 0 || len < 0 then p.(k := k)
    else p.(k := k, taken := p.taken + FrontCount(p.k.rcv.que), read := p.read + data, got := p.got + [data])
  }

  function InputOp(r: Ring, p: Peer, ws: seq<Wire>): Peer
    requires p.cfg.mss > 0
  {
    p.(k := Input(r, p.cfg, p.k, ws))
  }

  function FlushOp(r: Ring, p: Peer, current: int): (Peer, seq<seq<Wire>>) {
    var f := Flush(r, p.cfg, p.k, current);
    var m := MoveCount(r, p.k.snd, SendWindow(p.cfg, p.k));
    (p.(k := f.k, log := p.log + p.k.snd.que[..m]), Datagrams(p.cfg, f.wires))
  }

  /** ikcp_flush_ack: only the pending acknowledgements. */
  function FlushAckOp(p: Peer): (Peer, seq<seq<Wire>>) {
    (p.(k := p.k.(acks := [])), Datagrams(p.cfg, AckWires(p.cfg, p.k, p.k.acks)))
  }

  // ---------------------------------------------------------------------
  // Runs
  // ---------------------------------------------------------------------

  datatype Side = A | B

  datatype Action =
    | WriteAt(side: Side, alwaysStream: bool, data: seq<byte>)
    | FlushAt(side: Side, current: u32)
    | FlushAckAt(side: Side)
    | InputAt(side: Side, i: nat)
    | RecvAt(side: Side, len: int)

  datatype Net = Net(a: Peer, b: Peer, fromA: seq<seq<Wire>>, fromB: seq<seq<Wire>>)

  function PeerAt(n: Net, side: Side): Peer {
    if side.A? then n.a else n.b
  }

  /** Every datagram the given side has ever sent. */
  function SentBy(n: Net, side: Side): seq<seq<Wire>> {
    if side.A? then n.fromA else n.fromB
  }

  function Other(side: Side): Side {
    if side.A? then B else A
  }

  function Put(n: Net, side: Side, p: Peer, out: seq<seq<Wire>>): Net {
    if side.A? then n.(a := p, fromA := n.fromA + out) else n.(b := p, fromB := n.fromB + out)
  }

  predicate Usable(n: Net) {
    n.a.cfg.mss > 0 && n.b.cfg.mss > 0
  }

  function Step(r: Ring, n: Net, act: Action): (n': Net)
    requires Usable(n)
    ensures Usable(n')
  {
    var p := PeerAt(n, act.side);
    match act
    case WriteAt(side, alwaysStream, data) => Put(n, side, WriteOp(p, alwaysStream, data), [])
    case FlushAt(side, current) =>
      var (p', out) := FlushOp(r, p, current);
      Put(n, side, p', out)
    case FlushAckAt(side) =>
      var (p', out) := FlushAckOp(p);
      Put(n, side, p', out)
    case InputAt(side, i) =>
      var box := SentBy(n, Other(side));
      if i < |box| then Put(n, side, InputOp(r, p, box[i]), []) else n
    case RecvAt(side, len) => Put(n, side, RecvOp(r, p, len), [])
  }

  function Run(r: Ring, n: Net, acts: seq<Action>): (n': Net)
    requires Usable(n)
    ensures Usable(n')
    decreases |acts|
  {
    if acts == [] then n else Run(r, Step(r, n, acts[0]), acts[1..])
  }

  function Start(cfgA: Config, cfgB: Config): Net {
    Net(NewPeer(cfgA), NewPeer(cfgB), [], [])
  }

  // ---------------------------------------------------------------------
  // One direction
  // ---------------------------------------------------------------------

  /** A data segment carries the fragment the log has under its number. */
  predicate PushOk(log: seq<Frag>, w: Wire) {
    w.cmd == CMD_PUSH ==> 0 <= w.sn < |log| && log[w.sn] == Frag(w.frg, w.data)
  }

  /** What a segment acknowledges, the receiver holds. */
  predicate AckOk(sent: int, rcv: Rcv, w: Wire) {
    0 <= w.una <= rcv.nxt && (w.cmd == CMD_ACK ==> 0 <= w.sn < sent && Held(rcv, w.sn))
  }

  ghost predicate FwdOk(log: seq<Frag>, fwd: seq<seq<Wire>>) {
    forall i, j :: 0 <= i < |fwd| && 0 <= j < |fwd[i]| ==> PushOk(log, fwd[i][j])
  }

  ghost predicate BwdOk(sent: int, rcv: Rcv, bwd: seq<seq<Wire>>) {
    forall i, j :: 0 <= i < |bwd| && 0 <= j < |bwd[i]| ==> AckOk(sent, rcv, bwd[i][j])
  }

  ghost predicate AcksOk(sent: int, rcv: Rcv, acks: seq<Ack>) {
    forall i :: 0 <= i < |acks| ==> 0 <= acks[i].sn < sent && Held(rcv, acks[i].sn)
  }

  /** From s to t: what is numbered, in flight, acknowledged and read fits together. */
  ghost predicate Link(s: Peer, t: Peer, fwd: seq<seq<Wire>>, bwd: seq<seq<Wire>>) {
    && TxInv(Window(s.cfg), s.cfg.mss, TxOf(s))
    && RxInv(t.cfg.rcvWnd, s.log, RxOf(t))
    && Retained(s.k.snd.buf, |s.log|, t.k.rcv)
    && FwdOk(s.log, fwd)
    && BwdOk(|s.log|, t.k.rcv, bwd)
    && AcksOk(|s.log|, t.k.rcv, t.k.acks)
  }

  ghost predicate PeerInv(p: Peer) {
    ConfigOk(p.cfg) && KcbInv(Wide, p.cfg, p.k)
  }

  ghost predicate WindowsOk(sent: seq<seq<Wire>>) {
    forall i, j :: 0 <= i < |sent| && 0 <= j < |sent[i]| ==> InRing(Wide, sent[i][j])
  }

  ghost predicate Pair(x: Peer, y: Peer, fromX: seq<seq<Wire>>, fromY: seq<seq<Wire>>) {
    && PeerInv(x) && PeerInv(y)
    && Link(x, y, fromX, fromY) && Link(y, x, fromY, fromX)
    && WindowsOk(fromX) && WindowsOk(fromY)
  }

  ghost predicate NetInv(n: Net) {
    Pair(n.a, n.b, n.fromA, n.fromB)
  }

  // ---------------------------------------------------------------------
  // Input
  // ---------------------------------------------------------------------

  /** The receiver has moved on: everything held is still held. */
  ghost predicate Grown(before: Rcv, after: Rcv) {
    before.nxt <= after.nxt && forall sn :: Held(before, sn) ==> Held(after, sn)
  }

  lemma GrownKeepsLinks(sent: int, before: Rcv, after: Rcv, bwd: seq<seq<Wire>>, acks: seq<Ack>)
    requires Grown(before, after) && BwdOk(sent, before, bwd) && AcksOk(sent, before, acks)
    ensures BwdOk(sent, after, bwd) && AcksOk(sent, after, acks)
  {
    forall i, j | 0 <= i < |bwd| && 0 <= j < |bwd[i]|
      ensures AckOk(sent, after, bwd[i][j])
    {
      assert AckOk(sent, before, bwd[i][j]);
    }
  }

  lemma GrownRetains(buf: seq<SndSeg>, sent: int, before: Rcv, after: Rcv)
    requires Grown(before, after) && Retained(buf, sent, before)
    ensures Retained(buf, sent, after)
  {
  }

  lemma PushGrows(wnd: int, k: Rcv, seg: RcvSeg)
    requires WndOk(wnd) && RcvInv(Wide, wnd, k)
    ensures Grown(k, ParseData(Wide, wnd, k, seg))
  {
    var k' := ParseData(Wide, wnd, k, seg);
    forall sn | Held(k, sn)
      ensures Held(k', sn)
    {
      PushKeepsHeld(wnd, k, seg, sn);
    }
    if InWindow(Wide, wnd, k.nxt, seg.sn) {
      DrainMovesPrefix(Wide, wnd, k.(buf := Insert(Wide, k.buf, seg)));
    }
  }

  /** As a receiver: a genuine segment is filed, acknowledged only if held. */
  lemma SegAtReceiver(s: Peer, t: Peer, fwd: seq<seq<Wire>>, bwd: seq<seq<Wire>>, w: Wire)
    requires PeerInv(t) && Link(s, t, fwd, bwd) && PushOk(s.log, w)
    ensures Link(s, t.(k := InputSeg(Wide, t.cfg, t.k, w)), fwd, bwd)
  {
    hide TxInv, RxInv, Retained, FwdOk, BwdOk, AcksOk, SndAfter, ParseData, Grown, Held, RcvInv, SndInv, Sized, UpdateAck;
    var k' := InputSeg(Wide, t.cfg, t.k, w);
    InputSegSnd(Wide, t.cfg, t.k, w);
    if w.cmd == CMD_PUSH {
      var seg := RcvSeg(w.sn, w.frg, w.data);
      PushKeepsRx(t.cfg.rcvWnd, s.log, RxOf(t), seg);
      PushGrows(t.cfg.rcvWnd, t.k.rcv, seg);
      GrownKeepsLinks(|s.log|, t.k.rcv, k'.rcv, bwd, t.k.acks);
      GrownRetains(s.k.snd.buf, |s.log|, t.k.rcv, k'.rcv);
      AckAdded(|s.log|, k'.rcv, t.k.acks, k'.acks, w);
    }
  }

  lemma AckAdded(sent: int, rcv: Rcv, acks: seq<Ack>, acks': seq<Ack>, w: Wire)
    requires AcksOk(sent, rcv, acks) && 0 <= w.sn < sent
    requires acks' == acks || (acks' == acks + [Ack(w.sn, w.ts)] && Held(rcv, w.sn))
    ensures AcksOk(sent, rcv, acks')
  {
  }

  /** As a sender: a true acknowledgement removes only what the peer holds. */
  lemma SegAtSender(s: Peer, t: Peer, fwd: seq<seq<Wire>>, bwd: seq<seq<Wire>>, w: Wire)
    requires PeerInv(s) && Link(s, t, fwd, bwd) && AckOk(|s.log|, t.k.rcv, w)
    ensures Link(s.(k := InputSeg(Wide, s.cfg, s.k, w)), t, fwd, bwd)
  {
    hide TxInv, RxInv, Retained, FwdOk, BwdOk, AcksOk, SndAfter, ParseData, Held, RcvInv, SndInv, Sized, UpdateAck;
    InputSegSnd(Wide, s.cfg, s.k, w);
    AckKeepsTx(Window(s.cfg), s.cfg.mss, TxOf(s), w, t.k.rcv);
  }

  lemma SegKeepsPair(x: Peer, y: Peer, fromX: seq<seq<Wire>>, fromY: seq<seq<Wire>>, w: Wire)
    requires Pair(x, y, fromX, fromY)
    requires PushOk(y.log, w) && AckOk(|x.log|, y.k.rcv, w) && InRing(Wide, w)
    ensures Pair(x.(k := InputSeg(Wide, x.cfg, x.k, w)), y, fromX, fromY)
  {
    hide Link, InputSeg, KcbInv, PushOk, AckOk;
    InputSegKeepsInv(Wide, x.cfg, x.k, w);
    SegAtSender(x, y, fromX, fromY, w);
    SegAtReceiver(y, x, fromY, fromX, w);
  }

  lemma {:induction false} SegsKeepPair(x: Peer, y: Peer, fromX: seq<seq<Wire>>, fromY: seq<seq<Wire>>,
                                        m: MaxAck, ws: seq<Wire>)
    requires Pair(x, y, fromX, fromY)
    requires forall i :: 0 <= i < |ws| ==> PushOk(y.log, ws[i]) && AckOk(|x.log|, y.k.rcv, ws[i]) && InRing(Wide, ws[i])
    ensures Pair(x.(k := InputSegs(Wide, x.cfg, x.k, m, ws).0), y, fromX, fromY)
    decreases |ws|
  {
    hide Pair, InputSeg, NextMax, PushOk, AckOk, InRing;
    if ws != [] {
      SegKeepsPair(x, y, fromX, fromY, ws[0]);
      SegsKeepPair(x.(k := InputSeg(Wide, x.cfg, x.k, ws[0])), y, fromX, fromY, NextMax(Wide, m, ws[0]), ws[1..]);
    }
  }

  lemma EndKeepsPair(x: Peer, y: Peer, fromX: seq<seq<Wire>>, fromY: seq<seq<Wire>>, m: MaxAck, prevUna: int)
    requires Pair(x, y, fromX, fromY)
    ensures Pair(x.(k := EndInput(Wide, x.cfg, x.k, m, prevUna)), y, fromX, fromY)
  {
    hide TxInv, RxInv, Retained, FwdOk, BwdOk, AcksOk, Grow, SndInv, Sized, RcvInv, WindowsOk;
    var k' := EndInput(Wide, x.cfg, x.k, m, prevUna);
    EndInputKeepsInv(Wide, x.cfg, x.k, m, prevUna);
    if m.MaxAck? {
      SkipSame(Wide, x.k.snd.buf, m.sn);
      TimersKeepTx(Window(x.cfg), x.cfg.mss, TxOf(x), Skip(Wide, x.k.snd.buf, m.sn), y.k.rcv);
    }
  }

  lemma InputKeepsPair(x: Peer, y: Peer, fromX: seq<seq<Wire>>, fromY: seq<seq<Wire>>, i: nat)
    requires Pair(x, y, fromX, fromY) && i < |fromY|
    ensures Pair(InputOp(Wide, x, fromY[i]), y, fromX, fromY)
  {
    hide KcbInv, TxInv, RxInv, Retained, AcksOk, PushOk, AckOk, InRing, InputSegs, EndInput;
    var ws := fromY[i];
    SegsKeepPair(x, y, fromX, fromY, NoAck, ws);
    var (k', m) := InputSegs(Wide, x.cfg, x.k, NoAck, ws);
    EndKeepsPair(x.(k := k'), y, fromX, fromY, m, x.k.snd.una);
  }

  // ---------------------------------------------------------------------
  // Flush
  // ---------------------------------------------------------------------

  lemma {:induction false} FlattenHas<T>(xss: seq<seq<T>>, i: nat, j: nat)
    requires i < |xss| && j < |xss[i]|
    ensures xss[i][j] in Flatten(xss)
  {
    if i > 0 {
      FlattenHas(xss[1..], i - 1, j);
    }
  }

  /** Segments that fit a datagram. */
  ghost predicate AllFit(cfg: Config, ws: seq<Wire>) {
    forall i :: 0 <= i < |ws| ==> Need(ws[i]) <= cfg.mtu - cfg.headRoom
  }

  lemma DatagramsHold(cfg: Config, ws: seq<Wire>)
    requires ConfigOk(cfg) && AllFit(cfg, ws)
    ensures forall i, j :: 0 <= i < |Datagrams(cfg, ws)| && 0 <= j < |Datagrams(cfg, ws)[i]| ==>
      Datagrams(cfg, ws)[i][j] in ws
  {
    PackSpec(cfg.mtu - cfg.headRoom, ws);
    forall i, j | 0 <= i < |Datagrams(cfg, ws)| && 0 <= j < |Datagrams(cfg, ws)[i]|
      ensures Datagrams(cfg, ws)[i][j] in ws
    {
      FlattenHas(Datagrams(cfg, ws), i, j);
    }
  }

  lemma {:induction false} PushWiresFrom(cfg: Config, k: Kcb, current: int, buf: seq<SndSeg>, w: Wire)
    ensures w in PushWires(cfg, k, current, buf) ==>
      exists i :: 0 <= i < |buf| && w == Push(cfg, k, current, buf[i])
  {
    hide KindOf;
    if buf != [] && w in PushWires(cfg, k, current, buf) {
      PushWiresFrom(cfg, k, current, buf[1..], w);
      if w in PushWires(cfg, k, current, buf[1..]) {
        var i :| 0 <= i < |buf[1..]| && w == Push(cfg, k, current, buf[1..][i]);
        assert w == Push(cfg, k, current, buf[i + 1]);
      } else {
        assert w == Push(cfg, k, current, buf[0]);
      }
    }
  }

  /** Everything one flush sends: acknowledgements, probes, and numbered segments. */
  ghost predicate FlushedFrom(cfg: Config, k: Kcb, current: int, buf: seq<SndSeg>, w: Wire) {
    || (exists i :: 0 <= i < |k.acks| && w == Control(cfg, k, CMD_ACK, k.acks[i]))
    || w == Control(cfg, k, CMD_WASK, LastAck(k.acks))
    || w == Control(cfg, k, CMD_WINS, LastAck(k.acks))
    || (exists i :: 0 <= i < |buf| && w == Push(cfg, k, current, buf[i]))
  }

  lemma FlushSends(r: Ring, cfg: Config, k: Kcb, current: int, w: Wire)
    requires w in Flush(r, cfg, k, current).wires
    ensures FlushedFrom(cfg, k, current, Filled(r, cfg, k, current).buf, w)
  {
    hide Control, NextProbe, Fill;
    var buf := Filled(r, cfg, k, current).buf;
    var p := NextProbe(k.probe, k.rmtWnd, current);
    if w in AckWires(cfg, k, k.acks) {
    } else if w in ProbeWires(cfg, k, p) {
    } else {
      assert w in PushWires(cfg, k, current, buf);
      PushWiresFrom(cfg, k, current, buf, w);
    }
  }

  lemma FlushFits(r: Ring, cfg: Config, k: Kcb, current: int)
    requires ConfigOk(cfg) && Sized(cfg.mss, Filled(r, cfg, k, current))
    ensures AllFit(cfg, Flush(r, cfg, k, current).wires)
  {
    var ws := Flush(r, cfg, k, current).wires;
    hide Flush;
    var buf := Filled(r, cfg, k, current).buf;
    hide Filled;
    forall j | 0 <= j < |ws|
      ensures Need(ws[j]) <= cfg.mtu - cfg.headRoom
    {
      FlushSends(r, cfg, k, current, ws[j]);
      if i :| 0 <= i < |buf| && ws[j] == Push(cfg, k, current, buf[i]) {
        assert FragFits(cfg.mss, buf[i].frag);
      }
    }
  }

  /** What one end sends is true of its log, of what it holds, and in range. */
  lemma SentIsTrue(x: Peer, sent: int, log: seq<Frag>, current: int, buf: seq<SndSeg>, w: Wire)
    requires PeerInv(x) && AcksOk(sent, x.k.rcv, x.k.acks) && AllLogged(log, buf)
    requires FlushedFrom(x.cfg, x.k, current, buf, w) && x.k.rcv.nxt >= 0
    ensures PushOk(log, w) && AckOk(sent, x.k.rcv, w) && InRing(Wide, w)
  {
    hide SndInv, Sized, Held;
    if i :| 0 <= i < |buf| && w == Push(x.cfg, x.k, current, buf[i]) {
      assert Logged(log, buf[i]);
    }
  }

  lemma SentKeepsOk(log: seq<Frag>, sent: int, rcv: Rcv, before: seq<seq<Wire>>, more: seq<seq<Wire>>)
    requires FwdOk(log, before) && BwdOk(sent, rcv, before) && WindowsOk(before)
    requires forall i, j :: 0 <= i < |more| && 0 <= j < |more[i]| ==>
      PushOk(log, more[i][j]) && AckOk(sent, rcv, more[i][j]) && InRing(Wide, more[i][j])
    ensures FwdOk(log, before + more) && BwdOk(sent, rcv, before + more) && WindowsOk(before + more)
  {
    hide PushOk, AckOk, InRing;
    var all := before + more;
    forall i, j | 0 <= i < |all| && 0 <= j < |all[i]|
      ensures PushOk(log, all[i][j]) && AckOk(sent, rcv, all[i][j]) && InRing(Wide, all[i][j])
    {
      if i < |before| {
        assert all[i][j] == before[i][j];
      } else {
        assert all[i][j] == more[i - |before|][j];
      }
    }
  }

  lemma LongerLogOk(log: seq<Frag>, more: seq<Frag>, rcv: Rcv, fwd: seq<seq<Wire>>, bwd: seq<seq<Wire>>, acks: seq<Ack>)
    requires FwdOk(log, fwd) && BwdOk(|log|, rcv, bwd) && AcksOk(|log|, rcv, acks)
    ensures FwdOk(log + more, fwd) && BwdOk(|log + more|, rcv, bwd) && AcksOk(|log + more|, rcv, acks)
  {
    forall i, j | 0 <= i < |fwd| && 0 <= j < |fwd[i]|
      ensures PushOk(log + more, fwd[i][j])
    {
      assert PushOk(log, fwd[i][j]);
    }
    forall i, j | 0 <= i < |bwd| && 0 <= j < |bwd[i]|
      ensures AckOk(|log + more|, rcv, bwd[i][j])
    {
      assert AckOk(|log|, rcv, bwd[i][j]);
    }
  }

  /** The sender's half of a flush, before any datagram is on record. */
  lemma FlushAtSender(x: Peer, y: Peer, fromX: seq<seq<Wire>>, fromY: seq<seq<Wire>>, current: int)
    requires PeerInv(x) && Link(x, y, fromX, fromY)
    ensures Link(FlushOp(Wide, x, current).0, y, fromX, fromY)
    ensures AllLogged(FlushOp(Wide, x, current).0.log, Filled(Wide, x.cfg, x.k, current).buf)
  {
    hide RxInv, Retained, FwdOk, BwdOk, AcksOk, SndInv, Sized, RcvInv, AllLogged, TxHistory, SameSegs, Fill, MoveCount;
    var cwnd := SendWindow(x.cfg, x.k);
    var tx := TxOf(x);
    SendWindowOk(x.cfg, x.k);
    FillKeepsTx(Window(x.cfg), x.cfg.mss, tx, cwnd, current, x.k.rtt.rto, y.k.rcv);
    var m := MoveCount(Wide, x.k.snd, cwnd);
    var tx1 := NumberFrags(tx, Filled(Wide, x.cfg, x.k, current), m);
    SweepAllSame(x.cfg, current, x.k.rtt.rto, tx1.snd.buf);
    TimersKeepTx(Window(x.cfg), x.cfg.mss, tx1, SweepAll(x.cfg, current, x.k.rtt.rto, tx1.snd.buf), y.k.rcv);
    LongerLog(y.cfg.rcvWnd, x.log, x.k.snd.que[..m], RxOf(y));
    LongerLogOk(x.log, x.k.snd.que[..m], y.k.rcv, fromX, fromY, y.k.acks);
  }

  /** The receiver's half: rcv_nxt stays and the pending acknowledgements leave. */
  lemma FlushAtReceiver(x: Peer, y: Peer, fromX: seq<seq<Wire>>, fromY: seq<seq<Wire>>, current: int)
    requires Link(y, x, fromY, fromX)
    ensures Link(y, FlushOp(Wide, x, current).0, fromY, fromX)
  {
    hide TxInv, RxInv, Retained, FwdOk, BwdOk;
  }

  lemma NextIsNatural(wnd: int, log: seq<Frag>, rx: Rx)
    requires RxInv(wnd, log, rx)
    ensures rx.rcv.nxt >= 0
  {
  }

  lemma FlushKeepsPair(x: Peer, y: Peer, fromX: seq<seq<Wire>>, fromY: seq<seq<Wire>>, current: int)
    requires Pair(x, y, fromX, fromY)
    ensures var (x', out) := FlushOp(Wide, x, current); Pair(x', y, fromX + out, fromY)
  {
    hide TxInv, RxInv, Retained, KcbInv, Flush, Filled, AllFit, AllLogged, FlushedFrom, PushOk, AckOk, InRing;
    var f := Flush(Wide, x.cfg, x.k, current);
    var buf := Filled(Wide, x.cfg, x.k, current).buf;
    var (x', out) := FlushOp(Wide, x, current);
    NextIsNatural(x.cfg.rcvWnd, y.log, RxOf(x));
    FlushKeepsInv(Wide, x.cfg, x.k, current);
    FlushAtSender(x, y, fromX, fromY, current);
    FlushAtReceiver(x, y, fromX, fromY, current);
    FilledOk(Wide, x.cfg, x.k, current);
    FlushFits(Wide, x.cfg, x.k, current);
    DatagramsHold(x.cfg, f.wires);
    forall i, j | 0 <= i < |out| && 0 <= j < |out[i]|
      ensures PushOk(x'.log, out[i][j]) && AckOk(|y.log|, x.k.rcv, out[i][j]) && InRing(Wide, out[i][j])
    {
      FlushSends(Wide, x.cfg, x.k, current, out[i][j]);
      SentIsTrue(x, |y.log|, x'.log, current, buf, out[i][j]);
    }
    SentKeepsOk(x'.log, |y.log|, x.k.rcv, fromX, out);
    assert x'.k.rcv == x.k.rcv by { FlushKeepsReceiver(x, current); }
  }

  lemma FlushKeepsReceiver(x: Peer, current: int)
    ensures FlushOp(Wide, x, current).0.k.rcv == x.k.rcv
  {
  }

  lemma FlushAckKeepsPair(x: Peer, y: Peer, fromX: seq<seq<Wire>>, fromY: seq<seq<Wire>>)
    requires Pair(x, y, fromX, fromY)
    ensures var (x', out) := FlushAckOp(x); Pair(x', y, fromX + out, fromY)
  {
    hide TxInv, RxInv, Retained, KcbInv, AllFit, PushOk, AckOk, InRing;
    var ws := AckWires(x.cfg, x.k, x.k.acks);
    var (x', out) := FlushAckOp(x);
    assert AllFit(x.cfg, ws) by { AcksFit(x.cfg, x.k); }
    NextIsNatural(x.cfg.rcvWnd, y.log, RxOf(x));
    DatagramsHold(x.cfg, ws);
    forall i, j | 0 <= i < |out| && 0 <= j < |out[i]|
      ensures PushOk(x'.log, out[i][j]) && AckOk(|y.log|, x.k.rcv, out[i][j]) && InRing(Wide, out[i][j])
    {
      AckIsFlushed(x.cfg, x.k, 0, out[i][j]);
      SentIsTrue(x, |y.log|, x'.log, 0, [], out[i][j]);
    }
    SentKeepsOk(x'.log, |y.log|, x.k.rcv, fromX, out);
    assert KcbInv(Wide, x.cfg, x'.k) by { AcksNotInInv(x.cfg, x.k); }
  }

  lemma AcksFit(cfg: Config, k: Kcb)
    requires ConfigOk(cfg)
    ensures AllFit(cfg, AckWires(cfg, k, k.acks))
  {
  }

  lemma AckIsFlushed(cfg: Config, k: Kcb, current: int, w: Wire)
    requires w in AckWires(cfg, k, k.acks)
    ensures FlushedFrom(cfg, k, current, [], w)
  {
  }

  lemma AcksNotInInv(cfg: Config, k: Kcb)
    requires KcbInv(Wide, cfg, k)
    ensures KcbInv(Wide, cfg, k.(acks := []))
  {
  }

  // ---------------------------------------------------------------------
  // Write and receive
  // ---------------------------------------------------------------------

  lemma WriteKeepsPair(x: Peer, y: Peer, fromX: seq<seq<Wire>>, fromY: seq<seq<Wire>>, alwaysStream: bool, data: seq<byte>)
    requires Pair(x, y, fromX, fromY)
    ensures Pair(WriteOp(x, alwaysStream, data), y, fromX, fromY)
  {
    hide RxInv, Retained, RcvInv, FwdOk, BwdOk, AcksOk, AllLogged, TxHistory, SegsOk, WellCut, Enqueue;
    var stream := x.cfg.stream || alwaysStream;
    WriteKeepsInv(Wide, x.cfg, x.k, alwaysStream, data);
    WriteAppends(x.cfg.mss, stream, x.k.snd.que, data);
    WriteKeepsHistory(x.cfg.mss, stream, TxOf(x), data);
  }

  lemma RecvGrows(wnd: int, k: Rcv, len: int)
    ensures Grown(k, RecvFront(Wide, wnd, k, len).k)
  {
    hide RecvFront;
    forall sn | Held(k, sn)
      ensures Held(RecvFront(Wide, wnd, k, len).k, sn)
    {
      RecvKeepsHeld(wnd, k, len, sn);
    }
    assert Held(k, k.nxt - 1);
    RecvKeepsHeld(wnd, k, len, k.nxt - 1);
  }

  lemma RecvKeepsPair(x: Peer, y: Peer, fromX: seq<seq<Wire>>, fromY: seq<seq<Wire>>, len: int)
    requires Pair(x, y, fromX, fromY)
    ensures Pair(RecvOp(Wide, x, len), y, fromX, fromY)
  {
    var v := RecvFront(Wide, x.cfg.rcvWnd, x.k.rcv, len);
    hide RxInv, Retained, RcvInv, SndInv, Sized, FwdOk, BwdOk, AcksOk, AllLogged, Grown, RecvFront, WellCut;
    EngineInvariant.RecvKeepsInv(Wide, x.cfg, x.k, len);
    Reassembly.RecvKeepsRx(y.cfg.mss, x.cfg.rcvWnd, y.log, y.k.snd.que, RxOf(x), len);
    RecvGrows(x.cfg.rcvWnd, x.k.rcv, len);
    GrownKeepsLinks(|y.log|, x.k.rcv, v.k, fromX, x.k.acks);
    GrownRetains(y.k.snd.buf, |y.log|, x.k.rcv, v.k);
  }

  // ---------------------------------------------------------------------
  // Every run
  // ---------------------------------------------------------------------

  lemma PairSwap(x: Peer, y: Peer, fromX: seq<seq<Wire>>, fromY: seq<seq<Wire>>)
    requires Pair(x, y, fromX, fromY)
    ensures Pair(y, x, fromY, fromX)
  {
    hide Link, KcbInv, WindowsOk;
  }

  /** One action keeps the invariant, seen from the side that acts. */
  lemma ActKeepsPair(r: Ring, n: Net, act: Action)
    requires r.Wide? && Usable(n)
    requires Pair(PeerAt(n, act.side), PeerAt(n, Other(act.side)), SentBy(n, act.side), SentBy(n, Other(act.side)))
    ensures var n' := Step(r, n, act);
      Pair(PeerAt(n', act.side), PeerAt(n', Other(act.side)), SentBy(n', act.side), SentBy(n', Other(act.side)))
  {
    var x, y, fx, fy := PeerAt(n, act.side), PeerAt(n, Other(act.side)), SentBy(n, act.side), SentBy(n, Other(act.side));
    hide Pair, WriteOp, FlushOp, FlushAckOp, InputOp, RecvOp;
    assert fx + [] == fx;
    match act
    case WriteAt(side, alwaysStream, data) => WriteKeepsPair(x, y, fx, fy, alwaysStream, data);
    case FlushAt(side, current) => FlushKeepsPair(x, y, fx, fy, current);
    case FlushAckAt(side) => FlushAckKeepsPair(x, y, fx, fy);
    case InputAt(side, i) =>
      if i < |fy| {
        InputKeepsPair(x, y, fx, fy, i);
      }
    case RecvAt(side, len) => RecvKeepsPair(x, y, fx, fy, len);
  }

  lemma StepKeepsInv(n: Net, act: Action)
    requires Usable(n) && NetInv(n)
    ensures NetInv(Step(Wide, n, act))
  {
    hide Pair, WriteOp, FlushOp, FlushAckOp, InputOp, RecvOp;
    var n' := Step(Wide, n, act);
    hide Step;
    if act.side.A? {
      ActKeepsPair(Wide, n, act);
    } else {
      PairSwap(n.a, n.b, n.fromA, n.fromB);
      ActKeepsPair(Wide, n, act);
      PairSwap(n'.b, n'.a, n'.fromB, n'.fromA);
    }
  }

  lemma {:induction false} RunKeepsInv(n: Net, acts: seq<Action>)
    requires Usable(n) && NetInv(n)
    ensures NetInv(Run(Wide, n, acts))
    decreases |acts|
  {
    hide NetInv, Step;
    if acts != [] {
      StepKeepsInv(n, acts[0]);
      RunKeepsInv(Step(Wide, n, acts[0]), acts[1..]);
    }
  }

  lemma StartInv(cfgA: Config, cfgB: Config)
    requires ConfigOk(cfgA) && ConfigOk(cfgB)
    ensures NetInv(Start(cfgA, cfgB))
  {
    FreshInv(Wide, cfgA);
    FreshInv(Wide, cfgB);
    FreshLink(cfgA, cfgB);
    FreshLink(cfgB, cfgA);
  }

  lemma FreshLink(cfgA: Config, cfgB: Config)
    requires ConfigOk(cfgA) && ConfigOk(cfgB)
    ensures Link(NewPeer(cfgA), NewPeer(cfgB), [], [])
  {
    hide RcvInv, SndInv;
    FreshInv(Wide, cfgA);
    FreshInv(Wide, cfgB);
  }

  /** What the user at t has read, against what the user at s has written. */
  ghost predicate Delivers(s: Peer, t: Peer) {
    && t.read <= s.written
    && (s.whole ==> t.got <= s.said)
    && (|t.k.rcv.que| >= t.cfg.rcvWnd ==> PeekSize(t.k.rcv.que) >= 0)
    && Retained(s.k.snd.buf, s.k.snd.nxt, t.k.rcv)
  }

  lemma LinkDelivers(s: Peer, t: Peer, fwd: seq<seq<Wire>>, bwd: seq<seq<Wire>>)
    requires ConfigOk(t.cfg) && Link(s, t, fwd, bwd)
    ensures Delivers(s, t)
  {
    hide Retained, FwdOk, BwdOk, AcksOk, SndInv, RcvInv, AllGenuine, AllLogged, WellCut, Join, PeekSize;
    var all := s.log + s.k.snd.que;
    var head, tail := s.log[..t.taken], s.log[t.taken..];
    assert s.log == head + tail;
    JoinAppend(head, tail);
    assert s.written == Join(head) + (Join(tail) + Join(s.k.snd.que));
    assert all == head + (tail + s.k.snd.que);
    MessagesAppend([], head, tail + s.k.snd.que);
    if |t.k.rcv.que| >= t.cfg.rcvWnd {
      FullQueueIsReadable(s.cfg.mss, t.cfg.rcvWnd, s.log, s.k.snd.que, RxOf(t));
    }
  }

  /**
   End-to-end safety over unbounded numbers: in every run, whatever is lost,
   duplicated or reordered, each user has read a prefix of what the other has
   written (message by message, if it only sent messages), nothing undelivered
   has been forgotten, and a full receive queue can always be read.
   */
  lemma EveryRunDelivers(cfgA: Config, cfgB: Config, acts: seq<Action>)
    requires ConfigOk(cfgA) && ConfigOk(cfgB)
    ensures var n := Run(Wide, Start(cfgA, cfgB), acts);
      Delivers(n.a, n.b) && Delivers(n.b, n.a)
  {
    hide Run, Delivers, Link;
    var n := Run(Wide, Start(cfgA, cfgB), acts);
    StartInv(cfgA, cfgB);
    RunKeepsInv(Start(cfgA, cfgB), acts);
    LinkDelivers(n.a, n.b, n.fromA, n.fromB);
    LinkDelivers(n.b, n.a, n.fromB, n.fromA);
  }
}
