/**
 Two ends seen as two sequences of calls: whatever holds of one end under any
 calls holds of both ends of any run.
 */
module TwoEnds {
  import opened SerialArith
  import opened Receiver
  import opened Sender
  import opened Codec
  import opened Engine
  import opened EngineInvariant
  import opened Connection
  import opened WrappedRuns
  import opened ByteRuns
  import opened Endpoint
  import opened Arrivals

  /** The call an action of the network makes at an end. */
  function CallsFor(n: ByteNet, side: Side, act: Action): seq<Call> {
    if act.side != side then []
    else match act
      case WriteAt(_, alwaysStream, data) => [CallWrite(alwaysStream, data)]
      case FlushAt(_, current) => [CallFlush(current)]
      case FlushAckAt(_) => [CallFlushAck]
      case InputAt(_, i) =>
        var box := ByteSent(n, Other(side));
        if i < |box| then [CallInput(box[i])] else []
      case RecvAt(_, len) => [CallRecv(len)]
  }

  /** All the calls a run makes at one end, the datagrams it gets among them. */
  function CallsAt(n: ByteNet, side: Side, acts: seq<Action>): seq<Call>
    requires ByteUsable(n)
    decreases |acts|
  {
    if acts == [] then []
    else
      var m := |acts| - 1;
      CallsAt(n, side, acts[..m]) + CallsFor(ByteRun(n, acts[..m]), side, acts[m])
  }

  lemma {:induction false} RunLast(n: ByteNet, acts: seq<Action>)
    requires ByteUsable(n) && acts != []
    ensures ByteRun(n, acts) == ByteStep(ByteRun(n, acts[..|acts| - 1]), acts[|acts| - 1])
    decreases |acts|
  {
    hide ByteStep, ByteUsable;
    if |acts| == 1 {
      assert acts[..0] == [] && acts[1..] == [];
    } else {
      RunLast(ByteStep(n, acts[0]), acts[1..]);
      assert acts[1..][..|acts| - 2] == acts[..|acts| - 1][1..];
    }
  }

  lemma {:induction false} RunAppend(n: ByteNet, a: seq<Action>, b: seq<Action>)
    requires ByteUsable(n)
    ensures ByteRun(n, a + b) == ByteRun(ByteRun(n, a), b)
    decreases |a|
  {
    hide ByteStep, ByteUsable;
    if a == [] {
      assert a + b == b;
    } else {
      assert (a + b)[1..] == a[1..] + b;
      RunAppend(ByteStep(n, a[0]), a[1..], b);
    }
  }

  lemma {:induction false} AfterMore(cfg: Config, k: Kcb, a: seq<Call>, b: seq<Call>)
    requires cfg.mss > 0
    ensures AfterFrom(cfg, k, a + b) == AfterFrom(cfg, AfterFrom(cfg, k, a), b)
    decreases |b|
  {
    hide Apply;
    if b == [] {
      assert a + b == a;
    } else {
      var n := |b| - 1;
      assert (a + b)[..|a + b| - 1] == a + b[..n];
      AfterMore(cfg, k, a, b[..n]);
    }
  }

  lemma StepCalls(n: ByteNet, side: Side, act: Action)
    requires ByteUsable(n)
    ensures var p, q := BytePeer(n, side), BytePeer(ByteStep(n, act), side);
      q.cfg == p.cfg && p.cfg.mss > 0 && q.k == AfterFrom(p.cfg, p.k, CallsFor(n, side, act))
  {
    hide InputBytes, Flush, Write, Recv, EncodeGrams, Datagrams, MoveCount, FrontCount;
    var p := BytePeer(n, side);
    forall call: Call
      ensures AfterFrom(p.cfg, p.k, [call]) == Apply(p.cfg, p.k, call)
    {
      assert [call][..0] == [];
      assert AfterFrom(p.cfg, p.k, [call][..0]) == p.k;
    }
  }

  /** In a run of two ends each end is what its calls make it: whatever holds of calls holds there. */
  lemma {:induction false} EndFollowsCalls(n: ByteNet, side: Side, acts: seq<Action>)
    requires ByteUsable(n)
    ensures var p, q := BytePeer(n, side), BytePeer(ByteRun(n, acts), side);
      q.cfg == p.cfg && p.cfg.mss > 0 && q.k == AfterFrom(p.cfg, p.k, CallsAt(n, side, acts))
    decreases |acts|
  {
    hide ByteStep, CallsFor, Apply;
    if acts != [] {
      var m := |acts| - 1;
      EndFollowsCalls(n, side, acts[..m]);
      RunLast(n, acts);
      StepCalls(ByteRun(n, acts[..m]), side, acts[m]);
      var p := BytePeer(n, side);
      AfterMore(p.cfg, p.k, CallsAt(n, side, acts[..m]), CallsFor(ByteRun(n, acts[..m]), side, acts[m]));
    }
  }

  lemma {:induction false} NoFlushCalls(n: ByteNet, side: Side, acts: seq<Action>)
    requires ByteUsable(n) && forall i :: 0 <= i < |acts| && acts[i].FlushAt? ==> acts[i].side != side
    ensures forall i :: 0 <= i < |CallsAt(n, side, acts)| ==> !CallsAt(n, side, acts)[i].CallFlush?
    decreases |acts|
  {
    hide ByteStep;
    if acts != [] {
      NoFlushCalls(n, side, acts[..|acts| - 1]);
    }
  }

  // ---------------------------------------------------------------------
  // What a flush puts on the network
  // ---------------------------------------------------------------------

  /** The net is one that a run over segments gives, encoded. */
  ghost predicate Encoded(n: ByteNet, m: Net) {
    NetFits(m) && EncodeNet(m) == n
  }

  lemma {:induction false} RunFits(n: ByteNet, m: Net, acts: seq<Action>) returns (m': Net)
    requires ByteUsable(n) && Encoded(n, m)
    ensures Encoded(ByteRun(n, acts), m')
    decreases |acts|
  {
    hide NetFits, Step, ByteStep, EncodeNet, ByteUsable;
    if acts == [] {
      m' := m;
    } else {
      NetUsable(m);
      ByteStepDecodes(m, acts[0]);
      m' := RunFits(ByteStep(n, acts[0]), Step(Ring32, m, acts[0]), acts[1..]);
    }
  }

  lemma EncodedOk(n: ByteNet, m: Net, side: Side)
    requires Encoded(n, m)
    ensures ByteUsable(n) && BlockOk(BytePeer(n, side).cfg, BytePeer(n, side).k)
    ensures n.a.cfg.conv == n.b.cfg.conv
  {
    hide BlockOk, GramsOk, EncodeGrams;
    NetUsable(m);
  }

  lemma {:induction false} InSomeGram(grams: seq<seq<Wire>>, w: Wire) returns (d: nat)
    requires w in Flatten(grams)
    ensures d < |grams| && w in grams[d]
  {
    if w in grams[0] {
      d := 0;
    } else {
      d := InSomeGram(grams[1..], w);
      d := d + 1;
    }
  }

  /** The datagrams a flush adds to what its end has sent. */
  function Added(n: ByteNet, side: Side, current: u32): seq<seq<byte>>
    requires ByteUsable(n)
  {
    ByteSent(ByteStep(n, FlushAt(side, current)), side)[|ByteSent(n, side)|..]
  }

  lemma AddedIs(n: ByteNet, side: Side, current: u32)
    requires ByteUsable(n)
    ensures var p := BytePeer(n, side);
      && Added(n, side, current) == EncodeGrams(p.cfg.conv, Datagrams(p.cfg, Flush(Ring32, p.cfg, p.k, current).wires))
      && ByteSent(ByteStep(n, FlushAt(side, current)), side) == ByteSent(n, side) + Added(n, side, current)
      && BytePeer(ByteStep(n, FlushAt(side, current)), side).cfg == p.cfg
      && BytePeer(ByteStep(n, FlushAt(side, current)), Other(side)) == BytePeer(n, Other(side))
  {
    hide Flush, EncodeGrams, Datagrams, MoveCount;
  }

  /** A datagram of a flush, as the other end reads it. */
  lemma AddedReads(n: ByteNet, m: Net, side: Side, current: u32, d: nat)
    requires ByteUsable(n) && Encoded(n, m) && d < |Added(n, side, current)|
    ensures var p := BytePeer(n, side);
      var grams := Datagrams(p.cfg, Flush(Ring32, p.cfg, p.k, current).wires);
      && |grams| == |Added(n, side, current)| && grams[d] != []
      && ReadFrom(p.cfg.conv, Added(n, side, current)[d]) == (grams[d], true)
      && Flatten(grams) == Flush(Ring32, p.cfg, p.k, current).wires
      && forall w :: w in grams[d] ==> w in Flush(Ring32, p.cfg, p.k, current).wires
  {
    hide Flush, KcbInv, AllFits, AllFit, EncodeAll, DecodeAll, NetFits, EncodeNet, Added, ByteStep;
    var p := BytePeer(n, side);
    var ws := Flush(Ring32, p.cfg, p.k, current).wires;
    var grams := Datagrams(p.cfg, ws);
    EncodedOk(n, m, side);
    AddedIs(n, side, current);
    FilledOk(Ring32, p.cfg, p.k, current);
    FlushFits(Ring32, p.cfg, p.k, current);
    FlushAllFits(p.cfg, p.k, current);
    PackedOk(p.cfg, ws);
    FitMeansNeed(p.cfg, ws);
    PackSpec(p.cfg.mtu - p.cfg.headRoom, ws);
    DatagramsHold(p.cfg, ws);
    DecodeEncode(p.cfg.conv, grams[d]);
    EncodeAllSize(p.cfg.conv, grams[d]);
    NotSmall(grams[d]);
  }

  lemma NotSmall(ws: seq<Wire>)
    requires ws != []
    ensures Size(ws) >= OVERHEAD
  {
  }
}
