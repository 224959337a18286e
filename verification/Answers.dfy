/**
 Window probes are answered: what one end has read obliges its next flush, and
 over the network a probe that arrives brings the prober the room its peer has.
 */
module Answers {
  import opened SerialArith
  import opened Receiver
  import opened Sender
  import opened Codec
  import opened Engine
  import opened EngineInvariant
  import opened Connection
  import opened WrappedRuns
  import opened ByteRuns
  import opened Endpoint
  import opened Arrivals
  import opened Probing
  import opened FlowControl
  import opened TwoEnds

  // ---------------------------------------------------------------------
  // One end
  // ---------------------------------------------------------------------

  /** A datagram with a probe in it. */
  predicate Asked(cfg: Config, call: Call) {
    call.CallInput? && Has(ReadFrom(cfg.conv, call.bytes).0, CMD_WASK)
  }

  /** A read that takes a full receive queue below the window. */
  predicate Reopens(cfg: Config, k: Kcb, call: Call) {
    call.CallRecv? && |k.rcv.que| >= cfg.rcvWnd && |Recv(Ring32, cfg, k, call.len).0.rcv.que| < cfg.rcvWnd
  }

  lemma ReadTells(cfg: Config, k: Kcb, len: int)
    ensures Recv(Ring32, cfg, k, len).0.probe ==
      k.probe.(tell := k.probe.tell || Reopens(cfg, k, CallRecv(len)))
  {
    hide Drain, PeekSize;
  }

  lemma CallTells(cfg: Config, k: Kcb, call: Call)
    requires cfg.mss > 0 && !call.CallFlush?
    ensures Apply(cfg, k, call).probe == k.probe.(tell := k.probe.tell || Asked(cfg, call) || Reopens(cfg, k, call))
  {
    hide InputBytes, ReadFrom, Fragments.Enqueue, Recv;
    match call
    case CallInput(b) => InputTells(cfg, k, b);
    case CallRecv(len) => ReadTells(cfg, k, len);
    case _ =>
  }

  /** Some call of the run asks for an announcement, or makes one due. */
  ghost predicate MakesDue(cfg: Config, k: Kcb, calls: seq<Call>)
    requires cfg.mss > 0
  {
    exists i :: 0 <= i < |calls| && (Asked(cfg, calls[i]) || Reopens(cfg, AfterFrom(cfg, k, calls[..i]), calls[i]))
  }

  lemma {:induction false} DueExactly(cfg: Config, k: Kcb, calls: seq<Call>)
    requires cfg.mss > 0 && forall i :: 0 <= i < |calls| ==> !calls[i].CallFlush?
    ensures AfterFrom(cfg, k, calls).probe.tell <==> k.probe.tell || MakesDue(cfg, k, calls)
    decreases |calls|
  {
    hide Apply, Asked, Reopens;
    if calls != [] {
      var n := |calls| - 1;
      var before := calls[..n];
      DueExactly(cfg, k, before);
      CallTells(cfg, AfterFrom(cfg, k, before), calls[n]);
      forall i | 0 <= i < n
        ensures before[i] == calls[i] && before[..i] == calls[..i]
      {
      }
      if i :| 0 <= i < n && (Asked(cfg, before[i]) || Reopens(cfg, AfterFrom(cfg, k, before[..i]), before[i])) {
        assert Asked(cfg, calls[i]) || Reopens(cfg, AfterFrom(cfg, k, calls[..i]), calls[i]);
      }
    }
  }

  predicate SendsWins(ws: seq<Wire>) {
    exists i :: 0 <= i < |ws| && ws[i].cmd == CMD_WINS
  }

  lemma FlushTellsExactly(cfg: Config, k: Kcb, current: u32)
    ensures SendsWins(Flush(Ring32, cfg, k, current).wires) <==> k.probe.tell
    ensures !Flush(Ring32, cfg, k, current).k.probe.tell
  {
    hide NextProbe, Filled, SweepAll, AfterLoss, WndUnused, KindOf, CountKind, NextDeadline, PushWires;
    NextKeepsTell(k.probe, k.rmtWnd, current);
    var p := NextProbe(k.probe, k.rmtWnd, current);
    var buf := Filled(Ring32, cfg, k, current).buf;
    PushesAreData(cfg, k, current, buf);
    var cs := ProbeWires(cfg, k, p);
    var ws := Flush(Ring32, cfg, k, current).wires;
    assert ws == AckWires(cfg, k, k.acks) + cs + PushWires(cfg, k, current, buf);
    if p.tell {
      assert cs[|cs| - 1].cmd == CMD_WINS;
      assert ws[|k.acks| + |cs| - 1] == cs[|cs| - 1];
    }
  }

  lemma NextKeepsTell(p: Probe, rmtWnd: int, current: int)
    ensures NextProbe(p, rmtWnd, current).tell == p.tell
  {
  }

  /**
   Between two flushes: the second one announces the window exactly when a
   probe has been read since the first, or a read has reopened a full queue.
   */
  lemma WinsExactly(cfg: Config, k: Kcb, first: u32, calls: seq<Call>, second: u32)
    requires cfg.mss > 0 && forall i :: 0 <= i < |calls| ==> !calls[i].CallFlush?
    ensures var k1 := Flush(Ring32, cfg, k, first).k;
      SendsWins(Flush(Ring32, cfg, AfterFrom(cfg, k1, calls), second).wires) <==> MakesDue(cfg, k1, calls)
  {
    hide Flush, MakesDue, Apply, SendsWins;
    var k1 := Flush(Ring32, cfg, k, first).k;
    FlushTellsExactly(cfg, k, first);
    DueExactly(cfg, k1, calls);
    FlushTellsExactly(cfg, AfterFrom(cfg, k1, calls), second);
  }

  /**
   Whatever other calls are made in between, the flush after an input that has
   read a probe sends a WINS with the room there is in the receive queue then.
   */
  lemma ProbeIsAnswered(cfg: Config, k: Kcb, b: seq<byte>, calls: seq<Call>, current: u32)
    requires ConfigOk(cfg) && KcbInv(Ring32, cfg, k) && Has(ReadFrom(cfg.conv, b).0, CMD_WASK)
    requires forall i :: 0 <= i < |calls| ==> !calls[i].CallFlush?
    ensures var later := AfterFrom(cfg, InputBytes(cfg, k, b).k, calls);
      exists w ::
        && w in Flush(Ring32, cfg, later, current).wires
        && w.cmd == CMD_WINS && w.wnd + |later.rcv.que| == cfg.rcvWnd && w.una == later.rcv.nxt
  {
    hide KcbInv, Flush, InputBytes, ReadFrom, Has, Apply;
    var k1 := InputBytes(cfg, k, b).k;
    var later := AfterFrom(cfg, k1, calls);
    InputTells(cfg, k, b);
    OtherCallsOnlyTell(cfg, k1, calls);
    FlushTellsExactly(cfg, later, current);
    InputBytesKeepsInv(cfg, k, b);
    CallsKeepInv(cfg, k1, calls);
    var ws := Flush(Ring32, cfg, later, current).wires;
    var i :| 0 <= i < |ws| && ws[i].cmd == CMD_WINS;
    FlushAnnounces(cfg, later, current, ws[i]);
  }

  lemma {:induction false} CallsKeepInv(cfg: Config, k: Kcb, calls: seq<Call>)
    requires ConfigOk(cfg) && KcbInv(Ring32, cfg, k)
    ensures KcbInv(Ring32, cfg, AfterFrom(cfg, k, calls))
    decreases |calls|
  {
    hide KcbInv, Apply;
    if calls != [] {
      var n := |calls| - 1;
      CallsKeepInv(cfg, k, calls[..n]);
      CallKeepsInv(cfg, AfterFrom(cfg, k, calls[..n]), calls[n]);
    }
  }

  lemma CallKeepsInv(cfg: Config, k: Kcb, call: Call)
    requires ConfigOk(cfg) && KcbInv(Ring32, cfg, k)
    ensures KcbInv(Ring32, cfg, Apply(cfg, k, call))
  {
    hide InputBytes, Flush, Write, Recv, SndInv, RcvInv, Sized;
    match call
    case CallWrite(alwaysStream, data) => WriteKeepsInv(Ring32, cfg, k, alwaysStream, data);
    case CallFlush(current) => FlushKeepsInv(Ring32, cfg, k, current);
    case CallFlushAck =>
    case CallInput(bytes) => InputBytesKeepsInv(cfg, k, bytes);
    case CallRecv(len) => EngineInvariant.RecvKeepsInv(Ring32, cfg, k, len);
  }

  // ---------------------------------------------------------------------
  // Two ends
  // ---------------------------------------------------------------------

  /** After any run of two ends. */
  ghost function Reached(cfgA: Config, cfgB: Config, acts: seq<Action>): (n: ByteNet)
    requires ConfigOk(cfgA) && ConfigOk(cfgB)
    ensures ByteUsable(n)
  {
    ByteRun(ByteNet(NewPeer(cfgA), NewPeer(cfgB), [], []), acts)
  }

  lemma ReachedFits(cfgA: Config, cfgB: Config, acts: seq<Action>) returns (m: Net)
    requires ConfigOk(cfgA) && ConfigOk(cfgB) && cfgA.conv == cfgB.conv
    ensures Encoded(Reached(cfgA, cfgB, acts), m)
  {
    hide NetFits, ConfigOk, ByteRun;
    StartFits(cfgA, cfgB);
    NetUsable(Start(cfgA, cfgB));
    m := RunFits(ByteNet(NewPeer(cfgA), NewPeer(cfgB), [], []), Start(cfgA, cfgB), acts);
  }

  /** The d-th datagram that a flush adds tells the other end, when it arrives, how much room there was at the flush. */
  predicate BringsRoom(n: ByteNet, side: Side, current: u32, d: nat)
    requires ByteUsable(n)
  {
    var p, n' := BytePeer(n, side), ByteStep(n, FlushAt(side, current));
    BytePeer(ByteStep(n', InputAt(Other(side), |ByteSent(n, side)| + d)), Other(side)).k.rmtWnd + |p.k.rcv.que|
      == p.cfg.rcvWnd
  }

  lemma RoomArrives(n: ByteNet, m: Net, side: Side, current: u32, d: nat)
    requires ByteUsable(n) && Encoded(n, m) && d < |Added(n, side, current)|
    ensures BringsRoom(n, side, current, d)
  {
    hide Flush, KcbInv, NetFits, EncodeNet, Added, ByteStep, InputBytes, ReadFrom, LastWnd, Encoded, BlockOk;
    var p, q, n' := BytePeer(n, side), BytePeer(n, Other(side)), ByteStep(n, FlushAt(side, current));
    var body := Added(n, side, current)[d];
    EncodedOk(n, m, side);
    AddedIs(n, side, current);
    LastReadIsRoom(n, m, side, current, d, q.k.rmtWnd);
    InputTells(q.cfg, q.k, body);
    StepInputs(n', Other(side), |ByteSent(n, side)| + d);
  }

  /** The last segment of such a datagram announces that room. */
  lemma LastReadIsRoom(n: ByteNet, m: Net, side: Side, current: u32, d: nat, before: int)
    requires ByteUsable(n) && Encoded(n, m) && d < |Added(n, side, current)|
    ensures var p := BytePeer(n, side);
      LastWnd(ReadFrom(p.cfg.conv, Added(n, side, current)[d]).0, before) + |p.k.rcv.que| == p.cfg.rcvWnd
  {
    hide Flush, KcbInv, NetFits, EncodeNet, Added, ByteStep, ReadFrom, Datagrams;
    var p := BytePeer(n, side);
    EncodedOk(n, m, side);
    AddedReads(n, m, side, current, d);
    var ws := ReadFrom(p.cfg.conv, Added(n, side, current)[d]).0;
    FlushAnnounces(p.cfg, p.k, current, ws[|ws| - 1]);
  }

  lemma StepInputs(n: ByteNet, side: Side, i: nat)
    requires ByteUsable(n) && i < |ByteSent(n, Other(side))|
    ensures var p := BytePeer(n, side);
      p.cfg.mss > 0
      && BytePeer(ByteStep(n, InputAt(side, i)), side) == p.(k := InputBytes(p.cfg, p.k, ByteSent(n, Other(side))[i]).k)
  {
    hide InputBytes;
  }

  /**
   Over the network: a datagram with a probe arrives, anything but a flush of
   that end happens, at either end, and then that end flushes. Among the
   datagrams it puts on the network is one with a WINS, and whichever of them
   arrives tells the prober how much room its peer had at the flush.
   */
  lemma ProbeOverNetwork(cfgA: Config, cfgB: Config, before: seq<Action>, side: Side, i: nat, acts: seq<Action>, current: u32)
      returns (d: nat)
    requires ConfigOk(cfgA) && ConfigOk(cfgB) && cfgA.conv == cfgB.conv
    requires var box := ByteSent(Reached(cfgA, cfgB, before), Other(side));
      i < |box| && Has(ReadFrom(cfgA.conv, box[i]).0, CMD_WASK)
    requires forall j :: 0 <= j < |acts| && acts[j].FlushAt? ==> acts[j].side != side
    ensures var n := Reached(cfgA, cfgB, before + [InputAt(side, i)] + acts);
      && d < |Added(n, side, current)|
      && Has(ReadFrom(cfgA.conv, Added(n, side, current)[d]).0, CMD_WINS)
      && forall e: nat :: e < |Added(n, side, current)| ==> BringsRoom(n, side, current, e)
  {
    hide Flush, NetFits, EncodeNet, Added, ByteStep, ByteRun, InputBytes, ReadFrom, Datagrams, Has, BringsRoom;
    var n0 := Reached(cfgA, cfgB, before);
    var n1 := ByteStep(n0, InputAt(side, i));
    var n := Reached(cfgA, cfgB, before + [InputAt(side, i)] + acts);
    ReachedSplits(cfgA, cfgB, before, InputAt(side, i), acts);
    var m0 := ReachedFits(cfgA, cfgB, before);
    EncodedOk(n0, m0, side);
    StepInputs(n0, side, i);
    ConvOf(cfgA, cfgB, before, side);
    EndFollowsCalls(n1, side, acts);
    NoFlushCalls(n1, side, acts);
    var p0 := BytePeer(n0, side);
    ProbeIsAnswered(p0.cfg, p0.k, ByteSent(n0, Other(side))[i], CallsAt(n1, side, acts), current);
    var p := BytePeer(n, side);
    var w :| w in Flush(Ring32, p.cfg, p.k, current).wires && w.cmd == CMD_WINS;
    var m := ReachedFits(cfgA, cfgB, before + [InputAt(side, i)] + acts);
    d := AddedHas(n, m, side, current, w);
    forall e: nat | e < |Added(n, side, current)|
      ensures BringsRoom(n, side, current, e)
    {
      RoomArrives(n, m, side, current, e);
    }
  }

  lemma AddedHas(n: ByteNet, m: Net, side: Side, current: u32, w: Wire) returns (d: nat)
    requires ByteUsable(n) && Encoded(n, m)
    requires var p := BytePeer(n, side); w in Flush(Ring32, p.cfg, p.k, current).wires
    ensures d < |Added(n, side, current)|
    ensures Has(ReadFrom(BytePeer(n, side).cfg.conv, Added(n, side, current)[d]).0, w.cmd)
  {
    hide Flush, KcbInv, NetFits, EncodeNet, Added, ByteStep, ReadFrom, AllFit;
    var p := BytePeer(n, side);
    var ws := Flush(Ring32, p.cfg, p.k, current).wires;
    var grams := Datagrams(p.cfg, ws);
    EncodedOk(n, m, side);
    AddedIs(n, side, current);
    FilledOk(Ring32, p.cfg, p.k, current);
    FlushFits(Ring32, p.cfg, p.k, current);
    FitMeansNeed(p.cfg, ws);
    PackSpec(p.cfg.mtu - p.cfg.headRoom, ws);
    d := InSomeGram(grams, w);
    AddedReads(n, m, side, current, d);
    var j :| 0 <= j < |grams[d]| && grams[d][j] == w;
  }

  lemma ReachedSplits(cfgA: Config, cfgB: Config, before: seq<Action>, act: Action, acts: seq<Action>)
    requires ConfigOk(cfgA) && ConfigOk(cfgB)
    ensures var n1 := ByteStep(Reached(cfgA, cfgB, before), act);
      ByteUsable(n1) && Reached(cfgA, cfgB, before + [act] + acts) == ByteRun(n1, acts)
  {
    hide ByteStep;
    var n := ByteNet(NewPeer(cfgA), NewPeer(cfgB), [], []);
    RunLast(n, before + [act]);
    assert (before + [act])[..|before|] == before;
    RunAppend(n, before + [act], acts);
  }

  lemma ConvOf(cfgA: Config, cfgB: Config, acts: seq<Action>, side: Side)
    requires ConfigOk(cfgA) && ConfigOk(cfgB) && cfgA.conv == cfgB.conv
    ensures BytePeer(Reached(cfgA, cfgB, acts), side).cfg == if side.A? then cfgA else cfgB
  {
    hide ByteRun, CallsAt;
    EndFollowsCalls(ByteNet(NewPeer(cfgA), NewPeer(cfgB), [], []), side, acts);
  }
}
