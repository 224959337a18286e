/**
 Datagrams as bytes: what one flush encodes the other end's input decodes, and
 runs over a network of bytes are runs over a network of segments.
 */
module ByteRuns {
  import opened SerialArith
  import opened Receiver
  import opened Sender
  import opened Codec
  import opened Fragments
  import opened Engine
  import opened EngineInvariant
  import opened Connection
  import opened Wraparound
  import opened WrappedRuns

  // ---------------------------------------------------------------------
  // Decoding
  // ---------------------------------------------------------------------

  /** The segments ikcp_input's parser reads from a datagram, and whether it reached the end. */
  function DecodeAll(conv: int, b: seq<byte>): (seq<Wire>, bool)
    decreases |b|
  {
    match Parse(conv, b)
    case Segment(w, rest) =>
      var (ws, ok) := DecodeAll(conv, rest);
      ([w] + ws, ok)
    case p => ([], p.End?)
  }

  ghost predicate AllFits(ws: seq<Wire>) {
    forall i :: 0 <= i < |ws| ==> Fits(ws[i])
  }

  lemma {:induction false} DecodeEncode(conv: u32, ws: seq<Wire>)
    requires AllFits(ws)
    ensures DecodeAll(conv, EncodeAll(conv, ws)) == (ws, true)
  {
    hide Fits, Encode, Parse;
    if ws == [] {
      assert Parse(conv, []) == End by { ParseNothing(conv); }
    } else {
      ParseEncode(conv, ws[0], EncodeAll(conv, ws[1..]));
      DecodeEncode(conv, ws[1..]);
      assert [ws[0]] + ws[1..] == ws;
    }
  }

  lemma ParseNothing(conv: int)
    ensures Parse(conv, []) == End
  {
  }

  /** On an encoded datagram the byte loop of ikcp_input does what the segment loop does. */
  lemma {:induction false} InputLoopDecodes(cfg: Config, k: Kcb, m: MaxAck, ws: seq<Wire>, prevUna: int)
    requires cfg.mss > 0 && AllFits(ws)
    ensures var (k', m') := InputSegs(Ring32, cfg, k, m, ws);
      InputLoop(cfg, k, m, EncodeAll(cfg.conv, ws), prevUna) == InputResult(EndInput(Ring32, cfg, k', m', prevUna), 0)
    decreases |ws|
  {
    hide Fits, Encode, Parse, InputSeg, EndInput, NextMax;
    if ws == [] {
      ParseNothing(cfg.conv);
    } else {
      ParseEncode(cfg.conv, ws[0], EncodeAll(cfg.conv, ws[1..]));
      InputLoopDecodes(cfg, InputSeg(Ring32, cfg, k, ws[0]), NextMax(Ring32, m, ws[0]), ws[1..], prevUna);
    }
  }

  lemma InputBytesDecodes(cfg: Config, k: Kcb, ws: seq<Wire>)
    requires cfg.mss > 0 && AllFits(ws) && ws != []
    ensures InputBytes(cfg, k, EncodeAll(cfg.conv, ws)) == InputResult(Input(Ring32, cfg, k, ws), 0)
  {
    hide Fits, InputSegs, EndInput, InputLoop, Encode;
    EncodeAllSize(cfg.conv, ws);
    assert Size(ws) >= Need(ws[0]);
    InputLoopDecodes(cfg, k, NoAck, ws, k.snd.una);
  }

  // ---------------------------------------------------------------------
  // What a flush sends fits the header
  // ---------------------------------------------------------------------

  predicate IsU32(x: int) {
    0 <= x < 0x1_0000_0000
  }

  ghost predicate AcksInRange(acks: seq<Ack>) {
    forall i :: 0 <= i < |acks| ==> IsU32(acks[i].sn) && IsU32(acks[i].ts)
  }

  ghost predicate BlockOk(cfg: Config, k: Kcb) {
    ConfigOk(cfg) && KcbInv(Ring32, cfg, k) && AcksInRange(k.acks)
  }

  lemma FlushedFits(cfg: Config, k: Kcb, current: u32, buf: seq<SndSeg>, w: Wire)
    requires BlockOk(cfg, k) && FlushedFrom(cfg, k, current, buf, w)
    requires forall i :: 0 <= i < |buf| ==> IsU32(buf[i].sn) && FragFits(cfg.mss, buf[i].frag)
    ensures Fits(w)
  {
    hide SndInv, Sized, BufOk, QueOk;
  }

  lemma FilledInRange(cfg: Config, k: Kcb, current: u32)
    requires BlockOk(cfg, k)
    ensures var buf := Filled(Ring32, cfg, k, current).buf;
      forall i :: 0 <= i < |buf| ==> IsU32(buf[i].sn) && FragFits(cfg.mss, buf[i].frag)
  {
    hide Filled, KcbInv, FragFits;
    FilledOk(Ring32, cfg, k, current);
  }

  lemma FlushAllFits(cfg: Config, k: Kcb, current: u32)
    requires BlockOk(cfg, k)
    ensures AllFits(Flush(Ring32, cfg, k, current).wires)
  {
    hide Flush, Filled, Fits, FlushedFrom, KcbInv, FragFits, IsU32;
    var ws := Flush(Ring32, cfg, k, current).wires;
    FilledInRange(cfg, k, current);
    forall i | 0 <= i < |ws|
      ensures Fits(ws[i])
    {
      FlushSends(Ring32, cfg, k, current, ws[i]);
      FlushedFits(cfg, k, current, Filled(Ring32, cfg, k, current).buf, ws[i]);
    }
  }

  lemma AckWiresFit(cfg: Config, k: Kcb)
    requires BlockOk(cfg, k)
    ensures AllFits(AckWires(cfg, k, k.acks))
  {
    hide Fits, FlushedFrom, KcbInv;
    var ws := AckWires(cfg, k, k.acks);
    forall i | 0 <= i < |ws|
      ensures Fits(ws[i])
    {
      AckIsFlushed(cfg, k, 0, ws[i]);
      FlushedFits(cfg, k, 0, [], ws[i]);
    }
  }

  /** A list of datagrams, each non-empty and made of segments that fit. */
  ghost predicate GramsOk(grams: seq<seq<Wire>>) {
    forall i :: 0 <= i < |grams| ==> grams[i] != [] && AllFits(grams[i])
  }

  lemma PackedOk(cfg: Config, ws: seq<Wire>)
    requires ConfigOk(cfg) && AllFits(ws) && AllFit(cfg, ws)
    ensures GramsOk(Datagrams(cfg, ws))
  {
    hide Fits, Need;
    var grams := Datagrams(cfg, ws);
    PackSpec(cfg.mtu - cfg.headRoom, ws);
    DatagramsHold(cfg, ws);
    hide Pack;
    forall i | 0 <= i < |grams|
      ensures grams[i] != [] && AllFits(grams[i])
    {
      assert Size(grams[i]) > 0;
    }
  }

  /** All the segments a list of datagrams decodes to, in order. */
  function DecodeGrams(conv: u32, bodies: seq<seq<byte>>): seq<Wire> {
    if bodies == [] then [] else DecodeAll(conv, bodies[0]).0 + DecodeGrams(conv, bodies[1..])
  }

  function EncodeGrams(conv: u32, grams: seq<seq<Wire>>): (bodies: seq<seq<byte>>)
    ensures |bodies| == |grams|
    ensures forall i :: 0 <= i < |grams| ==> bodies[i] == EncodeAll(conv, grams[i])
  {
    seq(|grams|, i requires 0 <= i < |grams| => EncodeAll(conv, grams[i]))
  }

  lemma {:induction false} DecodeGramsEncode(conv: u32, grams: seq<seq<Wire>>)
    requires GramsOk(grams)
    ensures DecodeGrams(conv, EncodeGrams(conv, grams)) == Flatten(grams)
  {
    hide AllFits, EncodeAll, DecodeAll;
    if grams != [] {
      DecodeEncode(conv, grams[0]);
      assert EncodeGrams(conv, grams)[1..] == EncodeGrams(conv, grams[1..]);
      DecodeGramsEncode(conv, grams[1..]);
    }
  }

  /**
   Flush and input undo each other: every datagram of a flush is longer than
   the head room and at most mtu bytes, and parsing the bodies in order gives
   exactly the acknowledgements, the probes due, and the segments due.
   */
  lemma FlushDecodes(cfg: Config, k: Kcb, current: u32)
    requires BlockOk(cfg, k)
    ensures var ws := Flush(Ring32, cfg, k, current).wires;
      var bodies := EncodeGrams(cfg.conv, Datagrams(cfg, ws));
      && DecodeGrams(cfg.conv, bodies) == ws
      && forall i :: 0 <= i < |bodies| ==> cfg.headRoom < cfg.headRoom + |bodies[i]| <= cfg.mtu
  {
    hide Flush, Filled, AllFits, AllFit, KcbInv, EncodeAll, DecodeAll, Pack, DecodeGrams;
    var ws := Flush(Ring32, cfg, k, current).wires;
    var grams := Datagrams(cfg, ws);
    FilledOk(Ring32, cfg, k, current);
    FlushFits(Ring32, cfg, k, current);
    FlushAllFits(cfg, k, current);
    PackedOk(cfg, ws);
    DecodeGramsEncode(cfg.conv, grams);
    assert Flatten(grams) == ws && (forall i :: 0 <= i < |grams| ==> 0 < Size(grams[i]) <= cfg.mtu - cfg.headRoom) by {
      FitMeansNeed(cfg, ws);
      PackSpec(cfg.mtu - cfg.headRoom, ws);
    }
    forall i | 0 <= i < |grams|
      ensures |EncodeGrams(cfg.conv, grams)[i]| == Size(grams[i])
    {
      EncodeAllSize(cfg.conv, grams[i]);
    }
  }

  lemma FitMeansNeed(cfg: Config, ws: seq<Wire>)
    requires AllFit(cfg, ws)
    ensures forall i :: 0 <= i < |ws| ==> Need(ws[i]) <= cfg.mtu - cfg.headRoom
  {
  }

  // ---------------------------------------------------------------------
  // Runs over bytes
  // ---------------------------------------------------------------------

  /** The network as it is: datagram bodies, without the head room in front. */
  datatype ByteNet = ByteNet(a: Peer, b: Peer, fromA: seq<seq<byte>>, fromB: seq<seq<byte>>)

  predicate ByteUsable(n: ByteNet) {
    n.a.cfg.mss > 0 && n.b.cfg.mss > 0
  }

  function BytePeer(n: ByteNet, side: Side): Peer {
    if side.A? then n.a else n.b
  }

  function ByteSent(n: ByteNet, side: Side): seq<seq<byte>> {
    if side.A? then n.fromA else n.fromB
  }

  function BytePut(n: ByteNet, side: Side, p: Peer, out: seq<seq<Wire>>): ByteNet {
    var bodies := EncodeGrams(p.cfg.conv, out);
    if side.A? then n.(a := p, fromA := n.fromA + bodies) else n.(b := p, fromB := n.fromB + bodies)
  }

  function ByteInput(p: Peer, body: seq<byte>): Peer
    requires p.cfg.mss > 0
  {
    p.(k := InputBytes(p.cfg, p.k, body).k)
  }

  function ByteStep(n: ByteNet, act: Action): (n': ByteNet)
    requires ByteUsable(n)
    ensures ByteUsable(n')
  {
    var p := BytePeer(n, act.side);
    match act
    case WriteAt(side, alwaysStream, data) => BytePut(n, side, WriteOp(p, alwaysStream, data), [])
    case FlushAt(side, current) =>
      var (p', out) := FlushOp(Ring32, p, current);
      BytePut(n, side, p', out)
    case FlushAckAt(side) =>
      var (p', out) := FlushAckOp(p);
      BytePut(n, side, p', out)
    case InputAt(side, i) =>
      var box := ByteSent(n, Other(side));
      if i < |box| then BytePut(n, side, ByteInput(p, box[i]), []) else n
    case RecvAt(side, len) => BytePut(n, side, RecvOp(Ring32, p, len), [])
  }

  function ByteRun(n: ByteNet, acts: seq<Action>): (n': ByteNet)
    requires ByteUsable(n)
    ensures ByteUsable(n')
    decreases |acts|
  {
    if acts == [] then n else ByteRun(ByteStep(n, acts[0]), acts[1..])
  }

  function EncodeNet(n: Net): ByteNet {
    ByteNet(n.a, n.b, EncodeGrams(n.a.cfg.conv, n.fromA), EncodeGrams(n.b.cfg.conv, n.fromB))
  }

  /** Both ends keep their invariants and everything on the network fits the header. */
  ghost predicate NetFits(n: Net) {
    && BlockOk(n.a.cfg, n.a.k) && BlockOk(n.b.cfg, n.b.k)
    && n.a.cfg.conv == n.b.cfg.conv
    && GramsOk(n.fromA) && GramsOk(n.fromB)
  }

  lemma FlushKeepsBlock(p: Peer, current: u32)
    requires BlockOk(p.cfg, p.k)
    ensures var (p', out) := FlushOp(Ring32, p, current);
      p'.cfg == p.cfg && BlockOk(p'.cfg, p'.k) && GramsOk(out)
  {
    hide Flush, Filled, AllFits, AllFit, KcbInv, Pack, MoveCount, GramsOk;
    FlushKeepsInv(Ring32, p.cfg, p.k, current);
    FilledOk(Ring32, p.cfg, p.k, current);
    FlushFits(Ring32, p.cfg, p.k, current);
    FlushAllFits(p.cfg, p.k, current);
    PackedOk(p.cfg, Flush(Ring32, p.cfg, p.k, current).wires);
    FlushClearsAcks(p, current);
  }

  lemma FlushClearsAcks(p: Peer, current: u32)
    ensures Flush(Ring32, p.cfg, p.k, current).k.acks == []
  {
  }

  lemma FlushAckKeepsBlock(p: Peer)
    requires BlockOk(p.cfg, p.k)
    ensures var (p', out) := FlushAckOp(p);
      p'.cfg == p.cfg && BlockOk(p'.cfg, p'.k) && GramsOk(out)
  {
    hide AllFits, AllFit, Pack, GramsOk, SndInv, RcvInv, Sized, AckWires;
    AckWiresFit(p.cfg, p.k);
    AcksFit(p.cfg, p.k);
    PackedOk(p.cfg, AckWires(p.cfg, p.k, p.k.acks));
  }

  lemma SegKeepsAcks(cfg: Config, k: Kcb, w: Wire)
    requires AcksInRange(k.acks) && Fits(w)
    ensures AcksInRange(InputSeg(Ring32, cfg, k, w).acks)
  {
    hide ParseUna, ParseAck, ParseData, UpdateAck, Diff;
  }

  lemma {:induction false} SegsKeepAcks(cfg: Config, k: Kcb, m: MaxAck, ws: seq<Wire>)
    requires AcksInRange(k.acks) && AllFits(ws)
    ensures AcksInRange(InputSegs(Ring32, cfg, k, m, ws).0.acks)
    decreases |ws|
  {
    hide InputSeg, NextMax, Fits, AcksInRange;
    if ws != [] {
      SegKeepsAcks(cfg, k, ws[0]);
      SegsKeepAcks(cfg, InputSeg(Ring32, cfg, k, ws[0]), NextMax(Ring32, m, ws[0]), ws[1..]);
    }
  }

  lemma FitsInRing(ws: seq<Wire>)
    requires AllFits(ws)
    ensures forall i :: 0 <= i < |ws| ==> InRing(Ring32, ws[i])
  {
    forall i | 0 <= i < |ws|
      ensures InRing(Ring32, ws[i])
    {
      assert Fits(ws[i]);
    }
  }

  lemma InputKeepsBlock(p: Peer, ws: seq<Wire>)
    requires BlockOk(p.cfg, p.k) && AllFits(ws)
    ensures BlockOk(p.cfg, InputOp(Ring32, p, ws).k)
  {
    hide KcbInv, AllFits, InRing, AcksInRange, InputSegs, Grow, ParseFastack, Diff;
    FitsInRing(ws);
    InputKeepsInv(Ring32, p.cfg, p.k, ws);
    SegsKeepAcks(p.cfg, p.k, NoAck, ws);
  }

  lemma UserKeepsBlock(p: Peer, alwaysStream: bool, data: seq<byte>, len: int)
    requires BlockOk(p.cfg, p.k)
    ensures WriteOp(p, alwaysStream, data).cfg == p.cfg && BlockOk(p.cfg, WriteOp(p, alwaysStream, data).k)
    ensures RecvOp(Ring32, p, len).cfg == p.cfg && BlockOk(p.cfg, RecvOp(Ring32, p, len).k)
  {
    hide KcbInv, Enqueue, RecvFront, FrontCount;
    WriteKeepsInv(Ring32, p.cfg, p.k, alwaysStream, data);
    EngineInvariant.RecvKeepsInv(Ring32, p.cfg, p.k, len);
  }

  lemma PutKeepsFits(n: Net, side: Side, p: Peer, out: seq<seq<Wire>>)
    requires NetFits(n) && p.cfg == PeerAt(n, side).cfg && BlockOk(p.cfg, p.k) && GramsOk(out)
    ensures NetFits(Connection.Put(n, side, p, out))
    ensures EncodeNet(Connection.Put(n, side, p, out)) == BytePut(EncodeNet(n), side, p, out)
  {
    hide KcbInv, AcksInRange, AllFits, EncodeAll;
    var box := SentBy(n, side);
    assert EncodeGrams(p.cfg.conv, box + out) == EncodeGrams(p.cfg.conv, box) + EncodeGrams(p.cfg.conv, out);
  }

  lemma NetUsable(n: Net)
    requires NetFits(n)
    ensures Usable(n) && ByteUsable(EncodeNet(n))
    ensures forall side :: BytePeer(EncodeNet(n), side) == PeerAt(n, side) && BlockOk(PeerAt(n, side).cfg, PeerAt(n, side).k)
    ensures GramsOk([])
  {
    hide KcbInv;
  }

  lemma InputByteOp(n: Net, side: Side, i: nat)
    requires NetFits(n) && i < |SentBy(n, Other(side))| && PeerAt(n, side).cfg.mss > 0
    ensures var ws := SentBy(n, Other(side))[i];
      && AllFits(ws)
      && |ByteSent(EncodeNet(n), Other(side))| == |SentBy(n, Other(side))|
      && ByteInput(PeerAt(n, side), ByteSent(EncodeNet(n), Other(side))[i]) == InputOp(Ring32, PeerAt(n, side), ws)
  {
    hide KcbInv, AllFits, InputBytes, EncodeAll, Input;
    InputBytesDecodes(PeerAt(n, side).cfg, PeerAt(n, side).k, SentBy(n, Other(side))[i]);
  }

  lemma ByteStepDecodes(n: Net, act: Action)
    requires NetFits(n) && Usable(n) && ByteUsable(EncodeNet(n))
    ensures NetFits(Step(Ring32, n, act))
    ensures ByteStep(EncodeNet(n), act) == EncodeNet(Step(Ring32, n, act))
  {
    hide NetFits, BlockOk, GramsOk, AllFits, WriteOp, FlushOp, FlushAckOp, InputOp, ByteInput, RecvOp, Connection.Put, BytePut, EncodeNet;
    var side := act.side;
    var p := PeerAt(n, side);
    NetUsable(n);
    match act
    case WriteAt(_, alwaysStream, data) =>
      UserKeepsBlock(p, alwaysStream, data, 0);
      PutKeepsFits(n, side, WriteOp(p, alwaysStream, data), []);
    case FlushAt(_, current) =>
      FlushKeepsBlock(p, current);
      PutKeepsFits(n, side, FlushOp(Ring32, p, current).0, FlushOp(Ring32, p, current).1);
    case FlushAckAt(_) =>
      FlushAckKeepsBlock(p);
      PutKeepsFits(n, side, FlushAckOp(p).0, FlushAckOp(p).1);
    case InputAt(_, i) =>
      SameBoxes(n, Other(side));
      if i < |SentBy(n, Other(side))| {
        InputByteOp(n, side, i);
        var ws := SentBy(n, Other(side))[i];
        InputKeepsBlock(p, ws);
        InputKeepsConfig(p, ws);
        PutKeepsFits(n, side, InputOp(Ring32, p, ws), []);
      }
    case RecvAt(_, len) =>
      UserKeepsBlock(p, false, [], len);
      PutKeepsFits(n, side, RecvOp(Ring32, p, len), []);
  }

  lemma SameBoxes(n: Net, side: Side)
    ensures |ByteSent(EncodeNet(n), side)| == |SentBy(n, side)|
  {
  }

  lemma InputKeepsConfig(p: Peer, ws: seq<Wire>)
    requires p.cfg.mss > 0
    ensures InputOp(Ring32, p, ws).cfg == p.cfg
  {
  }

  lemma {:induction false} ByteRunDecodes(n: Net, acts: seq<Action>)
    requires NetFits(n) && Usable(n) && ByteUsable(EncodeNet(n))
    ensures ByteRun(EncodeNet(n), acts) == EncodeNet(Run(Ring32, n, acts))
    decreases |acts|
  {
    hide NetFits, Step, ByteStep, EncodeNet;
    if acts != [] {
      ByteStepDecodes(n, acts[0]);
      NetUsable(Step(Ring32, n, acts[0]));
      ByteRunDecodes(Step(Ring32, n, acts[0]), acts[1..]);
    }
  }

  lemma StartFits(cfgA: Config, cfgB: Config)
    requires ConfigOk(cfgA) && ConfigOk(cfgB) && cfgA.conv == cfgB.conv
    ensures NetFits(Start(cfgA, cfgB))
    ensures EncodeNet(Start(cfgA, cfgB)) == ByteNet(NewPeer(cfgA), NewPeer(cfgB), [], [])
  {
    hide KcbInv;
    FreshInv(Ring32, cfgA);
    FreshInv(Ring32, cfgB);
  }

  /**
   End-to-end safety of the engine as it runs, over bytes: two ends of one
   conversation, a network that loses, duplicates and reorders datagrams, any
   sequence of writes, flushes, inputs and reads. As long as no datagram
   outlives half the sequence space, both directions are reliable.
   */
  lemma EveryByteRunDelivers(cfgA: Config, cfgB: Config, acts: seq<Action>)
    requires ConfigOk(cfgA) && ConfigOk(cfgB) && cfgA.conv == cfgB.conv
    requires TimelyRun(Start(cfgA, cfgB), acts)
    ensures var n := ByteRun(ByteNet(NewPeer(cfgA), NewPeer(cfgB), [], []), acts);
      Reliable(n.a, n.b) && Reliable(n.b, n.a)
  {
    hide TimelyRun, Run, ByteRun, Reliable, NetFits, NewPeer, ConfigOk;
    StartFits(cfgA, cfgB);
    NetUsable(Start(cfgA, cfgB));
    ByteRunDecodes(Start(cfgA, cfgB), acts);
    EveryTimelyRunDelivers(cfgA, cfgB, acts);
  }
}
