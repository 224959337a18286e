/**
 Runs in which nobody sends an empty message: then no fragment is ever empty,
 and neither is any message that is read.
 */
module WholeMessages {
  import opened SerialArith
  import opened Receiver
  import opened Sender
  import opened Codec
  import opened Fragments
  import opened Engine
  import opened EngineInvariant
  import opened Connection
  import opened WrappedRuns
  import opened ByteRuns

  predicate Full(fs: seq<Frag>) {
    forall i :: 0 <= i < |fs| ==> fs[i].data != []
  }

  lemma {:induction false} CutFull(mss: int, data: seq<byte>)
    requires mss > 0 && data != []
    ensures Full(Cut(mss, data)) && Full(CutStream(mss, data))
    decreases |data|
  {
    if |data| > mss {
      CutFull(mss, data[mss..]);
    }
  }

  /** ikcp_write queues no empty fragment, except for an empty message. */
  lemma EnqueueFull(mss: int, stream: bool, que: seq<Frag>, data: seq<byte>)
    requires mss > 0 && Full(que) && (stream || data != [])
    ensures Full(Enqueue(mss, stream, que, data).que)
  {
    hide Cut, CutStream, CountOf;
    if stream {
      var rest := data[Min(|data|, Spare(mss, que))..];
      if rest != [] {
        CutFull(mss, rest);
      }
    } else {
      CutFull(mss, data);
    }
  }

  lemma {:induction false} MessagesFull(part: seq<byte>, fs: seq<Frag>)
    requires Full(fs)
    ensures forall m :: m in MessagesFrom(part, fs) ==> m != []
    decreases |fs|
  {
    if fs != [] {
      MessagesFull(if fs[0].frg == 0 then [] else part + fs[0].data, fs[1..]);
    }
  }

  ghost predicate FullPeer(p: Peer) {
    Full(p.log) && Full(p.k.snd.que)
  }

  ghost predicate FullNet(n: ByteNet) {
    FullPeer(n.a) && FullPeer(n.b)
  }

  /** A write of data, or of stream data however short. */
  predicate FullAct(act: Action) {
    act.WriteAt? ==> act.alwaysStream || act.data != []
  }

  lemma WriteFull(p: Peer, alwaysStream: bool, data: seq<byte>)
    requires p.cfg.mss > 0 && FullPeer(p) && (alwaysStream || data != [])
    ensures FullPeer(WriteOp(p, alwaysStream, data))
  {
    hide Full, Enqueue;
    EnqueueFull(p.cfg.mss, p.cfg.stream || alwaysStream, p.k.snd.que, data);
  }

  lemma FlushFull(p: Peer, current: u32)
    requires FullPeer(p) && Norm(Ring32, p.k.snd.nxt) == p.k.snd.nxt
    ensures FullPeer(FlushOp(Ring32, p, current).0)
  {
    hide AckWires, ProbeWires, PushWires, NextProbe, SweepAll, CountKind, NextDeadline, AfterLoss, AnyExhausted, Datagrams, U32;
    FillIsFifo(Ring32, p.k.snd, SendWindow(p.cfg, p.k), current, p.k.rtt.rto);
  }

  lemma {:induction false} LoopKeepsQueue(cfg: Config, k: Kcb, m: MaxAck, b: seq<byte>, prevUna: int)
    requires cfg.mss > 0
    ensures InputLoop(cfg, k, m, b, prevUna).k.snd.que == k.snd.que
    decreases |b|
  {
    hide Parse, NextMax, UpdateAck, Grow, Skip, Diff;
    match Parse(cfg.conv, b)
    case Segment(w, rest) =>
      LoopKeepsQueue(cfg, InputSeg(Ring32, cfg, k, w), NextMax(Ring32, m, w), rest, prevUna);
      InputSegSnd(Ring32, cfg, k, w);
    case _ =>
  }

  lemma OthersFull(p: Peer, body: seq<byte>, len: int)
    requires p.cfg.mss > 0 && FullPeer(p)
    ensures FullPeer(ByteInput(p, body)) && FullPeer(RecvOp(Ring32, p, len)) && FullPeer(FlushAckOp(p).0)
  {
    hide InputLoop, RecvFront, AckWires, Datagrams, Full, FrontCount;
    LoopKeepsQueue(p.cfg, p.k, NoAck, body, p.k.snd.una);
  }

  lemma PutFull(n: ByteNet, side: Side, p: Peer, out: seq<seq<Wire>>)
    requires FullNet(n) && FullPeer(p)
    ensures FullNet(BytePut(n, side, p, out))
  {
    hide FullPeer, EncodeAll;
  }

  lemma StepFull(n: Net, act: Action)
    requires NetFits(n) && Usable(n) && ByteUsable(EncodeNet(n)) && FullNet(EncodeNet(n)) && FullAct(act)
    ensures FullNet(ByteStep(EncodeNet(n), act))
  {
    hide FullPeer, WriteOp, FlushOp, FlushAckOp, RecvOp, ByteInput, BytePut, EncodeNet, NetFits, BlockOk;
    var m := EncodeNet(n);
    var p := BytePeer(m, act.side);
    NetUsable(n);
    SideFull(m, act.side);
    match act
    case WriteAt(side, alwaysStream, data) =>
      WriteFull(p, alwaysStream, data);
      PutFull(m, side, WriteOp(p, alwaysStream, data), []);
    case FlushAt(side, current) =>
      NumbersNormal(p);
      FlushFull(p, current);
      PutFull(m, side, FlushOp(Ring32, p, current).0, FlushOp(Ring32, p, current).1);
    case FlushAckAt(side) =>
      OthersFull(p, [], 0);
      PutFull(m, side, FlushAckOp(p).0, FlushAckOp(p).1);
    case InputAt(side, i) =>
      var box := ByteSent(m, Other(side));
      if i < |box| {
        OthersFull(p, box[i], 0);
        PutFull(m, side, ByteInput(p, box[i]), []);
      }
    case RecvAt(side, len) =>
      OthersFull(p, [], len);
      PutFull(m, side, RecvOp(Ring32, p, len), []);
  }

  lemma SideFull(n: ByteNet, side: Side)
    requires FullNet(n)
    ensures FullPeer(BytePeer(n, side))
  {
    hide FullPeer;
  }

  lemma NumbersNormal(p: Peer)
    requires BlockOk(p.cfg, p.k)
    ensures Norm(Ring32, p.k.snd.nxt) == p.k.snd.nxt
  {
    hide SegsOk, RcvInv, Sized, U32;
  }

  lemma {:induction false} RunFull(n: Net, acts: seq<Action>)
    requires NetFits(n) && Usable(n) && ByteUsable(EncodeNet(n)) && FullNet(EncodeNet(n))
    requires forall i :: 0 <= i < |acts| ==> FullAct(acts[i])
    ensures FullNet(ByteRun(EncodeNet(n), acts))
    decreases |acts|
  {
    hide NetFits, Step, ByteStep, EncodeNet, FullNet, FullAct;
    if acts != [] {
      StepFull(n, acts[0]);
      ByteStepDecodes(n, acts[0]);
      NetUsable(Step(Ring32, n, acts[0]));
      RunFull(Step(Ring32, n, acts[0]), acts[1..]);
    }
  }

  /** Nothing that has been read is empty. */
  predicate NoneEmpty(p: Peer) {
    forall m :: m in p.got ==> m != []
  }

  lemma ReadFull(s: Peer, t: Peer)
    requires FullPeer(s) && Reliable(s, t)
    ensures NoneEmpty(t)
  {
    hide NothingForgotten, PeekSize;
    MessagesFull([], s.log[..t.taken]);
  }

  /** A run of two new ends in which nobody writes an empty message: nobody reads one. */
  lemma NobodyReadsEmpty(cfgA: Config, cfgB: Config, acts: seq<Action>)
    requires ConfigOk(cfgA) && ConfigOk(cfgB) && cfgA.conv == cfgB.conv
    requires forall i :: 0 <= i < |acts| ==> FullAct(acts[i])
    requires var n := ByteRun(ByteNet(NewPeer(cfgA), NewPeer(cfgB), [], []), acts);
      Reliable(n.a, n.b) && Reliable(n.b, n.a)
    ensures var n := ByteRun(ByteNet(NewPeer(cfgA), NewPeer(cfgB), [], []), acts);
      NoneEmpty(n.a) && NoneEmpty(n.b)
  {
    hide ByteRun, NetFits, ConfigOk, Reliable, FullAct;
    StartFits(cfgA, cfgB);
    NetUsable(Start(cfgA, cfgB));
    RunFull(Start(cfgA, cfgB), acts);
    var n := ByteRun(ByteNet(NewPeer(cfgA), NewPeer(cfgB), [], []), acts);
    ReadFull(n.a, n.b);
    ReadFull(n.b, n.a);
  }

  lemma EmptyPeek(seg: RcvSeg)
    requires seg.frg == 0 && seg.data == []
    ensures PeekSize([seg]) == 0
  {
    assert [seg][..1] == [seg] && [seg][1..] == [];
    assert Bytes([]) == [] && Bytes([seg]) == [] + [];
  }

  /** An end that does write an empty message makes its peer read one: the segment is accepted and complete. */
  lemma EmptyMessageIsRead(cfg: Config)
    requires ConfigOk(cfg)
    ensures Enqueue(cfg.mss, false, [], []) == EnqueueResult([Frag(0, [])], 0)
    ensures PeekSize(ParseData(Ring32, cfg.rcvWnd, Fresh(cfg).rcv, RcvSeg(0, 0, [])).que) == 0
  {
    var seg := RcvSeg(0, 0, []);
    var k1 := Rcv(0, [seg], []);
    assert InWindow(Ring32, cfg.rcvWnd, 0, 0);
    assert Insert(Ring32, [], seg) == [] + [seg] + [] == [seg];
    assert MoveHead(Ring32, k1).que == [] + [seg] == [seg] && MoveHead(Ring32, k1).buf == [];
    assert Drain(Ring32, cfg.rcvWnd, k1) == MoveHead(Ring32, k1);
    assert ParseData(Ring32, cfg.rcvWnd, Fresh(cfg).rcv, seg).que == [seg];
    EmptyPeek(seg);
  }
}
