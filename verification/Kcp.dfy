/**
 The control block as the program has it: one object whose fields the ikcp
 calls update in place. Every call is proved to do what the function of the
 same name in module Engine says.
 */
module Kcp {
  import opened SerialArith
  import opened Receiver
  import opened Sender
  import opened Codec
  import opened Fragments
  import opened Engine
  import opened EngineInvariant
  import opened ByteRuns

  lemma {:induction false} PutAllAppend(room: int, p: Packing, a: seq<Wire>, b: seq<Wire>)
    ensures PutAll(room, p, a + b) == PutAll(room, PutAll(room, p, a), b)
    decreases |a|
  {
    if a == [] {
      assert a + b == b;
    } else {
      assert (a + b)[1..] == a[1..] + b;
      PutAllAppend(room, Put(room, p, a[0]), a[1..], b);
    }
  }

  lemma ParseShort(conv: u32, b: seq<byte>)
    ensures |b| < OVERHEAD ==> Parse(conv, b) == End
  {
  }

  lemma FitsNumber(w: Wire)
    requires Fits(w)
    ensures IsU32(w.sn)
  {
  }

  lemma HeadRoomOk(cfg: Config)
    requires ConfigOk(cfg)
    ensures 0 <= cfg.headRoom && 0 < cfg.mss && cfg.mtu == cfg.mss + cfg.headRoom + OVERHEAD
  {
  }

  lemma GramsAppend(conv: u32, done: seq<seq<Wire>>, open: seq<Wire>)
    ensures EncodeGrams(conv, done + [open]) == EncodeGrams(conv, done) + [EncodeAll(conv, open)]
  {
    hide EncodeAll;
  }

  lemma SegmentAppended(conv: u32, room: seq<byte>, open: seq<Wire>, w: Wire)
    ensures room + EncodeAll(conv, open) + Header(conv, w) + w.data == room + EncodeAll(conv, open + [w])
  {
    hide Header;
    EncodeAllAppend(conv, open, w);
  }

  /** What the transmission loop has accumulated. */
  datatype Turn = Turn(p: Packing, wait: int, lost: nat, fast: nat, xmit: int, dead: bool)

  function TurnOne(cfg: Config, k: Kcb, current: u32, rto: int, seg: SndSeg, t: Turn): Turn {
    var kind := KindOf(cfg, current, seg);
    var d := TimeDiff(Sweep(cfg, current, rto, seg).resendts, current);
    Turn(if kind.Quiet? then t.p else Put(cfg.mtu - cfg.headRoom, t.p, Push(cfg, k, current, seg)),
         if 0 < d < t.wait then d else t.wait,
         if kind.Timeout? then t.lost + 1 else t.lost,
         if kind.Fast? then t.fast + 1 else t.fast,
         if kind.Timeout? then U32(t.xmit + 1) else t.xmit,
         t.dead || Exhausted(cfg, current, seg))
  }

  function TurnAll(cfg: Config, k: Kcb, current: u32, rto: int, buf: seq<SndSeg>, t: Turn): Turn
    decreases |buf|
  {
    if buf == [] then t else TurnAll(cfg, k, current, rto, buf[1..], TurnOne(cfg, k, current, rto, buf[0], t))
  }

  /** The loop accumulates what the functions of module Engine compute one by one. */
  lemma {:induction false} TurnAllIs(cfg: Config, k: Kcb, current: u32, rto: int, buf: seq<SndSeg>, t: Turn)
    ensures var u := TurnAll(cfg, k, current, rto, buf, t);
      && u.p == PutAll(cfg.mtu - cfg.headRoom, t.p, PushWires(cfg, k, current, buf))
      && u.wait == NextDeadline(current, SweepAll(cfg, current, rto, buf), t.wait)
      && u.lost == t.lost + CountKind(cfg, current, buf, Timeout)
      && u.fast == t.fast + CountKind(cfg, current, buf, Fast)
      && (t.xmit == U32(t.xmit) ==> u.xmit == U32(t.xmit + CountKind(cfg, current, buf, Timeout)))
      && u.dead == (t.dead || AnyExhausted(cfg, current, buf))
    decreases |buf|
  {
    hide Put, Sweep, KindOf, I32;
    if buf != [] {
      var t1 := TurnOne(cfg, k, current, rto, buf[0], t);
      TurnAllIs(cfg, k, current, rto, buf[1..], t1);
      PutAllCons(cfg.mtu - cfg.headRoom, t.p, Push(cfg, k, current, buf[0]), PushWires(cfg, k, current, buf[1..]));
      ExhaustedCons(cfg, current, buf);
      assert SweepAll(cfg, current, rto, buf)[1..] == SweepAll(cfg, current, rto, buf[1..]);
      U32Step(t.xmit, CountKind(cfg, current, buf[1..], Timeout));
      assert [] + PushWires(cfg, k, current, buf[1..]) == PushWires(cfg, k, current, buf[1..]);
    }
  }

  lemma U32Step(x: int, n: nat)
    ensures U32(U32(x + 1) + n) == U32(x + (1 + n)) && U32(U32(x + 1)) == U32(x + 1)
  {
  }

  lemma PutAllCons(room: int, p: Packing, w: Wire, ws: seq<Wire>)
    ensures PutAll(room, p, [w] + ws) == PutAll(room, Put(room, p, w), ws)
  {
    hide Put;
    assert ([w] + ws)[1..] == ws;
  }

  lemma ExhaustedCons(cfg: Config, current: u32, buf: seq<SndSeg>)
    requires buf != []
    ensures AnyExhausted(cfg, current, buf) == (Exhausted(cfg, current, buf[0]) || AnyExhausted(cfg, current, buf[1..]))
  {
    hide Exhausted;
    if AnyExhausted(cfg, current, buf) {
      var i :| 0 <= i < |buf| && Exhausted(cfg, current, buf[i]);
      assert i > 0 ==> Exhausted(cfg, current, buf[1..][i - 1]);
    }
    if AnyExhausted(cfg, current, buf[1..]) {
      var i :| 0 <= i < |buf| - 1 && Exhausted(cfg, current, buf[1..][i]);
      assert Exhausted(cfg, current, buf[i + 1]);
    }
  }

  lemma SweepKeeps(cfg: Config, current: u32, rto: int, seg: SndSeg)
    ensures var next := Sweep(cfg, current, rto, seg);
      && next.sn == seg.sn && next.frag == seg.frag
      && (!KindOf(cfg, current, seg).Quiet? ==> next.xmit == U32(seg.xmit + 1))
  {
    hide KindOf, U32, I32;
  }

  lemma OneMoreAck(cfg: Config, k: Kcb, p: Packing, acks: seq<Ack>, i: nat)
    requires i < |acks|
    ensures PutAll(cfg.mtu - cfg.headRoom, p, AckWires(cfg, k, acks[..i + 1]))
         == Put(cfg.mtu - cfg.headRoom, PutAll(cfg.mtu - cfg.headRoom, p, AckWires(cfg, k, acks[..i])), Control(cfg, k, CMD_ACK, acks[i]))
    ensures LastAck(acks[..i + 1]) == acks[i]
  {
    hide Put, Control;
    var w := Control(cfg, k, CMD_ACK, acks[i]);
    assert AckWires(cfg, k, acks[..i + 1]) == AckWires(cfg, k, acks[..i]) + [w];
    PutAllAppend(cfg.mtu - cfg.headRoom, p, AckWires(cfg, k, acks[..i]), [w]);
    assert [w] == [w] + [];
  }

  lemma TwoProbes(cfg: Config, k: Kcb, probe: Probe, p: Packing)
    ensures var r := cfg.mtu - cfg.headRoom;
      var q := if probe.ask then Put(r, p, Control(cfg, k, CMD_WASK, LastAck(k.acks))) else p;
      PutAll(r, p, ProbeWires(cfg, k, probe)) == if probe.tell then Put(r, q, Control(cfg, k, CMD_WINS, LastAck(k.acks))) else q
  {
    hide Put, Control, LastAck;
    var r := cfg.mtu - cfg.headRoom;
    var ask, tell := Control(cfg, k, CMD_WASK, LastAck(k.acks)), Control(cfg, k, CMD_WINS, LastAck(k.acks));
    PutAllCons(r, p, ask, if probe.tell then [tell] else []);
    PutAllCons(r, p, tell, []);
    PutAllCons(r, Put(r, p, ask), tell, []);
    assert [tell] + [] == [tell] == [] + [tell];
  }

  /** The control block after the second half of a flush. */
  function DataFlushed(cfg: Config, k: Kcb, current: u32, probe: Probe): Kcb {
    var s := Filled(Ring32, cfg, k, current);
    var lost := CountKind(cfg, current, s.buf, Timeout);
    Kcb(s.(buf := SweepAll(cfg, current, k.rtt.rto, s.buf)), k.rcv, [],
        AfterLoss(cfg, k.cong, U32(s.nxt - s.una), SendWindow(cfg, k), CountKind(cfg, current, s.buf, Fast) > 0, lost > 0),
        k.rtt, probe, k.rmtWnd, current, U32(k.xmit + lost), k.dead || AnyExhausted(cfg, current, s.buf))
  }

  lemma DataFlushedIs(cfg: Config, k: Kcb, current: u32)
    ensures var f := Engine.Flush(Ring32, cfg, k, current);
      && DataFlushed(cfg, k, current, f.k.probe) == f.k
      && f.k.probe == NextProbe(k.probe, k.rmtWnd, current).(ask := false, tell := false)
      && f.wait == NextDeadline(current, f.k.snd.buf, cfg.interval)
      && f.wires == AckWires(cfg, k, k.acks) + ProbeWires(cfg, k, NextProbe(k.probe, k.rmtWnd, current))
                    + PushWires(cfg, k, current, Filled(Ring32, cfg, k, current).buf)
  {
    hide Filled, SweepAll, CountKind, AnyExhausted, PushWires, NextDeadline, AckWires, ProbeWires, AfterLoss, NextProbe,
      U32, SendWindow;
  }

  lemma AlreadyU32(x: u32)
    ensures U32(x) == x
  {
  }

  /** The packing after the first half of a flush. */
  function Controls(cfg: Config, k: Kcb, current: u32): Packing {
    var r := cfg.mtu - cfg.headRoom;
    PutAll(r, PutAll(r, Packing([], []), AckWires(cfg, k, k.acks)), ProbeWires(cfg, k, NextProbe(k.probe, k.rmtWnd, current)))
  }

  lemma FillingStarts(conv: u32, base: seq<seq<byte>>)
    ensures EncodeAll(conv, []) == [] && Size([]) == 0
    ensures base + EncodeGrams(conv, []) == base
  {
  }

  lemma EmptyOpen(open: seq<Wire>)
    ensures Size(open) == 0 <==> open == []
  {
  }

  lemma PackIs(cfg: Config, a: seq<Wire>, b: seq<Wire>, c: seq<Wire>)
    ensures var r := cfg.mtu - cfg.headRoom;
      Datagrams(cfg, a + b + c) == Finish(PutAll(r, PutAll(r, PutAll(r, Packing([], []), a), b), c))
  {
    hide PutAll;
    var r := cfg.mtu - cfg.headRoom;
    PutAllAppend(r, Packing([], []), a + b, c);
    PutAllAppend(r, Packing([], []), a, b);
  }

  lemma NoAcks(cfg: Config, k: Kcb)
    ensures k.acks == [] ==> Datagrams(cfg, AckWires(cfg, k, k.acks)) == []
    ensures EncodeGrams(cfg.conv, []) == []
  {
  }

  lemma FilledFits(cfg: Config, k: Kcb, current: u32)
    requires ConfigOk(cfg) && KcbInv(Ring32, cfg, k)
    ensures var buf := Filled(Ring32, cfg, k, current).buf;
      forall i :: 0 <= i < |buf| ==> |buf[i].frag.data| <= cfg.mss
  {
    hide KcbInv, Filled, SndInv;
    FilledOk(Ring32, cfg, k, current);
  }

  function Skipped(seg: SndSeg): SndSeg {
    seg.(fastack := U32(seg.fastack + 1))
  }

  /** What the loop of ikcp_parse_fastack leaves when it goes on from index i. */
  function SkipFrom(buf: seq<SndSeg>, i: nat, sn: int): seq<SndSeg>
    requires i <= |buf|
  {
    buf[..i] + Skip(Ring32, buf[i..], sn)
  }

  lemma SkipStart(buf: seq<SndSeg>, sn: int)
    ensures SkipFrom(buf, 0, sn) == Skip(Ring32, buf, sn)
  {
    hide Skip;
    assert buf[0..] == buf;
  }

  lemma SkipStep(buf: seq<SndSeg>, i: nat, sn: int)
    requires i < |buf|
    ensures Diff(Ring32, sn, buf[i].sn) < 0 ==> SkipFrom(buf, i, sn) == buf
    ensures !(Diff(Ring32, sn, buf[i].sn) < 0) ==>
      SkipFrom(buf, i, sn) == SkipFrom(if sn != buf[i].sn then buf[i := Skipped(buf[i])] else buf, i + 1, sn)
  {
    hide Diff, U32;
    var next := if sn != buf[i].sn then buf[i := Skipped(buf[i])] else buf;
    assert buf[i..][1..] == buf[i + 1..] == next[i + 1..];
    assert buf[..i] + [next[i]] == next[..i + 1];
  }

  lemma SkipEnd(buf: seq<SndSeg>, sn: int)
    ensures SkipFrom(buf, |buf|, sn) == buf
  {
    hide Diff;
  }

  lemma OneFragment(que: seq<RcvSeg>)
    requires que != [] && que[0].frg == 0
    ensures Receiver.PeekSize(que) == |que[0].data|
  {
    assert FrontCount(que) == 1 && que[..1] == [que[0]];
    assert [que[0]][1..] == [];
    assert Bytes([que[0]]) == que[0].data + Bytes([]);
    assert que[0].data + [] == que[0].data;
  }

  /** One step of a loop over the front message. */
  lemma NextFragment(que: seq<RcvSeg>, i: nat)
    requires i < FrontCount(que) && FrontCount(que[i..]) == FrontCount(que) - i
    ensures Bytes(que[..i + 1]) == Bytes(que[..i]) + que[i].data
    ensures que[i].frg == 0 || i + 1 == |que| ==> FrontCount(que) == i + 1
    ensures que[i].frg != 0 && i + 1 < |que| ==> i + 1 < FrontCount(que) && FrontCount(que[i + 1..]) == FrontCount(que) - (i + 1)
  {
    BytesAppend(que[..i], que[i]);
    assert que[..i + 1] == que[..i] + [que[i]];
    assert que[i..][1..] == que[i + 1..];
    assert que[i..][0] == que[i];
  }

  lemma BytesAppend(a: seq<RcvSeg>, x: RcvSeg)
    ensures Bytes(a + [x]) == Bytes(a) + x.data
  {
    BytesOfBoth(a, [x]);
    assert [x][1..] == [] && x.data + [] == x.data;
  }

  /** A successful peek is the size of what will be merged. */
  lemma PeekIsMerged(que: seq<RcvSeg>)
    ensures que != [] && Receiver.PeekSize(que) >= 0 ==> Receiver.PeekSize(que) == |Bytes(que[..FrontCount(que)])|
  {
  }

  /** The fragments one ikcp_write cuts. */
  function Pieces(mss: int, stream: bool, data: seq<byte>): seq<Frag>
    requires mss > 0
  {
    if stream then CutStream(mss, data) else Cut(mss, data)
  }

  lemma PieceStep(mss: int, stream: bool, data: seq<byte>)
    requires mss > 0
    ensures var ps := Pieces(mss, stream, data);
      if |data| > mss
      then ps == [Frag(if stream then 0 else |ps| - 1, data[..mss])] + Pieces(mss, stream, data[mss..])
      else ps == [Frag(0, data[..|data|])]
  {
    assert data[..|data|] == data;
  }

  lemma PieceCount(mss: int, stream: bool, data: seq<byte>)
    requires mss > 0
    ensures |Pieces(mss, stream, data)| == CountOf(mss, |data|)
  {
    CutCount(mss, data);
    StreamCount(mss, data);
  }

  class ControlBlock {
    const cfg: Config

    // sender
    var sndUna: int
    var sndNxt: u32
    var sndBuf: seq<SndSeg>
    var sndQue: seq<Frag>
    var nsndBuf: nat
    var nsndQue: nat

    // receiver
    var rcvNxt: u32
    var rcvBuf: seq<RcvSeg>
    var rcvQue: seq<RcvSeg>
    var nrcvBuf: nat
    var nrcvQue: nat

    // pending acknowledgements, in an array that doubles
    var acklist: array<Ack>
    var ackcount: nat

    // congestion, round trip, probing
    var cong: Cong
    var rtt: Rtt
    var probe: Probe
    var rmtWnd: int
    var current: u32
    var xmit: u32
    var dead: bool

    // the datagram under construction, and the bodies handed to the output callback
    const buffer: array<byte>
    var sent: seq<seq<byte>>

    /** The counters match the queues, and the arrays are the size they should be. */
    predicate Valid()
      reads this
    {
      && ConfigOk(cfg)
      && nsndBuf == |sndBuf| && nsndQue == |sndQue|
      && nrcvBuf == |rcvBuf| && nrcvQue == |rcvQue|
      && ackcount <= acklist.Length
      && buffer.Length == 3 * (cfg.mtu + OVERHEAD)
    }

    ghost function View(): Kcb
      reads this, acklist
      requires ackcount <= acklist.Length
    {
      Kcb(Snd(sndUna, sndNxt, sndBuf, sndQue), Rcv(rcvNxt, rcvBuf, rcvQue), acklist[..ackcount],
          cong, rtt, probe, rmtWnd, current, xmit, dead)
    }

    /** ikcp_create and the configuration of a session. */
    constructor (cfg: Config)
      requires ConfigOk(cfg)
      ensures Valid() && fresh(acklist) && fresh(buffer)
      ensures this.cfg == cfg && View() == Fresh(cfg) && sent == []
    {
      this.cfg := cfg;
      sndUna, sndNxt, sndBuf, sndQue, nsndBuf, nsndQue := 0, 0, [], [], 0, 0;
      rcvNxt, rcvBuf, rcvQue, nrcvBuf, nrcvQue := 0, [], [], 0, 0;
      acklist, ackcount := new Ack[0], 0;
      cong, rtt, probe := Cong(1, 1376, THRESH_MIN), Rtt(0, 0, 200), Probe(false, false, 0, 0);
      rmtWnd, current, xmit, dead := 128, 0, 0, false;
      buffer := new byte[3 * (cfg.mtu + OVERHEAD)];
      sent := [];
    }

    // -------------------------------------------------------------------
    // Sending
    // -------------------------------------------------------------------

    /** The stream-mode start of ikcp_write: tops up the last queued fragment. */
    method TopUp(data: seq<byte>) returns (rest: seq<byte>)
      requires Valid()
      modifies `sndQue
      ensures Valid()
      ensures var head := data[..Min(|data|, Spare(cfg.mss, old(sndQue)))];
        && rest == data[|head|..]
        && sndQue == if Spare(cfg.mss, old(sndQue)) > 0 then Extend(old(sndQue), head) else old(sndQue)
    {
      rest := data;
      if sndQue != [] {
        var last := sndQue[|sndQue| - 1];
        if |last.data| < cfg.mss {
          var capacity := cfg.mss - |last.data|;
          var extend := if |data| < capacity then |data| else capacity;
          sndQue := sndQue[..|sndQue| - 1] + [Frag(0, last.data + data[..extend])];
          rest := data[extend..];
        }
      }
    }

    /** The fragmenting loop of ikcp_write. */
    method AppendFragments(data: seq<byte>, stream: bool, count: int)
      requires Valid() && count == CountOf(cfg.mss, |data|)
      modifies `sndQue, `nsndQue
      ensures Valid()
      ensures sndQue == old(sndQue) + Pieces(cfg.mss, stream, data)
    {
      hide CountOf, Cut, CutStream;
      var rest := data;
      var i := 0;
      PieceCount(cfg.mss, stream, data);
      while i < count
        invariant 0 <= i <= count && nsndQue == |sndQue|
        invariant i < count ==> |Pieces(cfg.mss, stream, rest)| == count - i
        invariant old(sndQue) + Pieces(cfg.mss, stream, data)
               == sndQue + if i < count then Pieces(cfg.mss, stream, rest) else []
      {
        PieceStep(cfg.mss, stream, rest);
        var size := if |rest| > cfg.mss then cfg.mss else |rest|;
        sndQue := sndQue + [Frag(if stream then 0 else count - i - 1, rest[..size])];
        nsndQue := nsndQue + 1;
        rest := rest[size..];
        i := i + 1;
      }
    }

    /** ikcp_write: len bytes of the buffer, or -1 for a negative length. */
    method Write(data: seq<byte>, len: int, alwaysStream: bool) returns (ret: int)
      requires Valid() && len <= |data|
      modifies `sndQue, `nsndQue
      ensures Valid()
      ensures len < 0 ==> ret == -1 && sndQue == old(sndQue)
      ensures len >= 0 ==> (View(), ret) == Engine.Write(cfg, old(View()), alwaysStream, data[..len])
    {
      hide Extend, Cut, CutStream, Spare;
      if len < 0 {
        return -1;
      }
      var stream := cfg.stream || alwaysStream;
      var rest := data[..len];
      if stream {
        rest := TopUp(rest);
        if rest == [] {
          return 0;
        }
      }
      var count := if |rest| <= cfg.mss then 1 else (|rest| + cfg.mss - 1) / cfg.mss;
      if !stream && count >= FRAG_LIMIT {
        return -2;
      }
      AppendFragments(rest, stream, count);
      return 0;
    }

    // -------------------------------------------------------------------
    // Acknowledgements
    // -------------------------------------------------------------------

    /** ikcp_shrink_buf. */
    method ShrinkBuf()
      requires Valid()
      modifies `sndUna
      ensures Valid()
      ensures View().snd == Shrink(old(View()).snd)
    {
      if sndBuf != [] {
        sndUna := sndBuf[0].sn;
      } else {
        sndUna := sndNxt;
      }
    }

    /** ikcp_parse_una. */
    method ParseUna(una: u32)
      requires Valid()
      modifies `sndBuf, `nsndBuf
      ensures Valid()
      ensures sndBuf == DropBelow(Ring32, old(sndBuf), una)
    {
      hide Diff;
      while sndBuf != [] && Diff(Ring32, una, sndBuf[0].sn) > 0
        invariant nsndBuf == |sndBuf|
        invariant DropBelow(Ring32, sndBuf, una) == DropBelow(Ring32, old(sndBuf), una)
        decreases |sndBuf|
      {
        sndBuf := sndBuf[1..];
        nsndBuf := nsndBuf - 1;
      }
    }

    /** ikcp_parse_ack. */
    method ParseAck(sn: u32)
      requires Valid()
      modifies `sndBuf, `nsndBuf
      ensures Valid()
      ensures sndBuf == if Outstanding(Ring32, old(View()).snd, sn) then Remove(Ring32, old(sndBuf), sn) else old(sndBuf)
    {
      hide Diff, ConfigOk, U32;
      if Diff(Ring32, sn, sndUna) < 0 || Diff(Ring32, sn, sndNxt) >= 0 {
        return;
      }
      var i := 0;
      assert sndBuf[..0] + Remove(Ring32, sndBuf[0..], sn) == Remove(Ring32, sndBuf, sn);
      while i < |sndBuf|
        invariant 0 <= i <= |sndBuf| && nsndBuf == |sndBuf| && sndBuf == old(sndBuf)
        invariant Remove(Ring32, old(sndBuf), sn) == sndBuf[..i] + Remove(Ring32, sndBuf[i..], sn)
      {
        if sndBuf[i].sn == sn {
          assert sndBuf[i..][1..] == sndBuf[i + 1..];
          sndBuf := sndBuf[..i] + sndBuf[i + 1..];
          nsndBuf := nsndBuf - 1;
          return;
        }
        if Diff(Ring32, sn, sndBuf[i].sn) < 0 {
          assert sndBuf[..i] + sndBuf[i..] == sndBuf;
          return;
        }
        assert sndBuf[i..][1..] == sndBuf[i + 1..];
        assert sndBuf[..i] + [sndBuf[i]] == sndBuf[..i + 1];
        i := i + 1;
      }
      assert sndBuf[..i] + [] == sndBuf;
    }

    /** ikcp_parse_fastack. */
    method ParseFastack(sn: u32)
      requires Valid()
      modifies `sndBuf
      ensures Valid()
      ensures sndBuf == if Outstanding(Ring32, old(View()).snd, sn) then Skip(Ring32, old(sndBuf), sn) else old(sndBuf)
    {
      hide Diff, U32, Skip;
      if Diff(Ring32, sn, sndUna) < 0 || Diff(Ring32, sn, sndNxt) >= 0 {
        return;
      }
      var i := 0;
      SkipStart(sndBuf, sn);
      while i < |sndBuf|
        invariant 0 <= i <= |sndBuf| == |old(sndBuf)|
        invariant Skip(Ring32, old(sndBuf), sn) == SkipFrom(sndBuf, i, sn)
      {
        var seg := sndBuf[i];
        SkipStep(sndBuf, i, sn);
        if Diff(Ring32, sn, seg.sn) < 0 {
          return;
        }
        if sn != seg.sn {
          sndBuf := sndBuf[i := Skipped(seg)];
        }
        i := i + 1;
      }
      SkipEnd(sndBuf, sn);
    }

    /** ikcp_update_ack. */
    method UpdateAck(sample: int)
      requires Valid()
      modifies `rtt
      ensures Valid()
      ensures rtt == Engine.UpdateAck(cfg, old(rtt), sample)
    {
      if rtt.srtt == 0 {
        rtt := rtt.(srtt := sample, rttval := TruncDiv(sample, 2));
      } else {
        var delta := I32(sample - rtt.srtt);
        if delta < 0 {
          delta := -delta;
        }
        rtt := rtt.(rttval := I32(TruncDiv(I32(3 * rtt.rttval) + delta, 4)));
        rtt := rtt.(srtt := TruncDiv(I32(7 * rtt.srtt + sample), 8));
        if rtt.srtt < 1 {
          rtt := rtt.(srtt := 1);
        }
      }
      var rto := U32(rtt.srtt + Max(cfg.interval, U32(4 * rtt.rttval)));
      rtt := rtt.(rto := Bound(cfg.minRto, rto, RTO_MAX));
    }

    /** ikcp_ack_push: the array doubles when it is full. */
    method AckPush(sn: u32, ts: u32)
      requires Valid()
      modifies `acklist, `ackcount, acklist
      ensures Valid() && (acklist == old(acklist) || fresh(acklist))
      ensures View() == old(View()).(acks := old(View()).acks + [Ack(sn, ts)])
    {
      hide ConfigOk;
      var newsize := ackcount + 1;
      if newsize > acklist.Length {
        var newblock := 8;
        while newblock < newsize
        {
          newblock := 2 * newblock;
        }
        var grown := new Ack[newblock];
        var x := 0;
        while x < ackcount
          invariant 0 <= x <= ackcount
          invariant grown[..x] == acklist[..x]
          modifies grown
        {
          grown[x] := acklist[x];
          x := x + 1;
        }
        acklist := grown;
      }
      acklist[ackcount] := Ack(sn, ts);
      ackcount := ackcount + 1;
    }

    // -------------------------------------------------------------------
    // ikcp_input
    // -------------------------------------------------------------------

    /** An acknowledgement segment: measures the round trip and drops what it names. */
    method ProcessAck(sn: u32, ts: u32)
      requires Valid()
      modifies `sndBuf, `nsndBuf, `sndUna, `rtt
      ensures Valid()
      ensures View() == old(View()).(
        snd := Sender.ParseAck(Ring32, old(View()).snd, sn),
        rtt := if TimeDiff(current, ts) >= 0 then Engine.UpdateAck(cfg, old(rtt), TimeDiff(current, ts)) else old(rtt))
    {
      hide Diff, I32, Remove, Engine.UpdateAck, ConfigOk;
      var sample := TimeDiff(current, ts);
      if sample >= 0 {
        UpdateAck(sample);
      }
      ParseAck(sn);
      ShrinkBuf();
    }

    /** A data segment: acknowledged while inside the window, and kept when it is new. */
    method ProcessPush(w: Wire)
      requires Valid() && Fits(w)
      modifies `acklist, `ackcount, acklist
      modifies `rcvNxt, `rcvBuf, `rcvQue, `nrcvBuf, `nrcvQue
      ensures Valid() && (acklist == old(acklist) || fresh(acklist))
      ensures
        var inside := Diff(Ring32, w.sn, U32(old(rcvNxt) + cfg.rcvWnd)) < 0;
        View() == old(View()).(
          acks := old(View()).acks + (if inside then [Ack(w.sn, w.ts)] else []),
          rcv := if inside && Diff(Ring32, w.sn, old(rcvNxt)) >= 0
                 then Receiver.ParseData(Ring32, cfg.rcvWnd, old(View()).rcv, RcvSeg(w.sn, w.frg, w.data))
                 else old(View()).rcv)
    {
      hide Diff, U32, Receiver.ParseData, ConfigOk;
      if Diff(Ring32, w.sn, U32(rcvNxt + cfg.rcvWnd)) < 0 {
        AckPush(w.sn, w.ts);
        if Diff(Ring32, w.sn, rcvNxt) >= 0 {
          ParseData(RcvSeg(w.sn, w.frg, w.data));
        }
      }
    }

    /** What every segment carries: the peer's window and how far it has received. */
    method ProcessCommon(wnd: int, una: u32)
      requires Valid()
      modifies `rmtWnd, `sndBuf, `nsndBuf, `sndUna
      ensures Valid()
      ensures View() == old(View()).(rmtWnd := wnd, snd := Sender.ParseUna(Ring32, old(View()).snd, una))
    {
      hide Diff, DropBelow, ConfigOk;
      rmtWnd := wnd;
      ParseUna(una);
      ShrinkBuf();
    }

    /** The body of ikcp_input's loop, once the header has been decoded and checked. */
    method ProcessSegment(w: Wire)
      requires Valid() && Fits(w)
      modifies `rmtWnd, `sndBuf, `nsndBuf, `sndUna, `rtt, `probe
      modifies `acklist, `ackcount, acklist
      modifies `rcvNxt, `rcvBuf, `rcvQue, `nrcvBuf, `nrcvQue
      ensures Valid() && (acklist == old(acklist) || fresh(acklist))
      ensures View() == InputSeg(Ring32, cfg, old(View()), w)
    {
      hide Diff, U32, I32, Sender.ParseUna, Sender.ParseAck, Receiver.ParseData, Engine.UpdateAck, ConfigOk;
      ghost var k := View();
      ProcessCommon(w.wnd, w.una);
      if w.cmd == CMD_ACK {
        ProcessAck(w.sn, w.ts);
      } else if w.cmd == CMD_PUSH {
        ProcessPush(w);
        assert k.acks + [] == k.acks;
      } else if w.cmd == CMD_WASK {
        probe := probe.(tell := true);
      }
    }

    /** The congestion window after ikcp_input has advanced snd_una. */
    method GrowWindow()
      requires Valid()
      modifies `cong
      ensures Valid()
      ensures cong == Grow(cfg.mss, old(cong), rmtWnd)
    {
      hide U32;
      if cong.cwnd < rmtWnd {
        var mss := cfg.mss;
        if cong.cwnd < cong.ssthresh {
          cong := cong.(cwnd := U32(cong.cwnd + 1), incr := U32(cong.incr + mss));
        } else {
          if cong.incr < mss {
            cong := cong.(incr := mss);
          }
          cong := cong.(incr := U32(cong.incr + U32(mss * mss) / cong.incr + mss / 16));
          if U32((cong.cwnd + 1) * mss) <= cong.incr {
            cong := cong.(cwnd := U32(cong.incr + mss - 1) / mss);
          }
        }
        if cong.cwnd > rmtWnd {
          cong := cong.(cwnd := rmtWnd, incr := U32(rmtWnd * mss));
        }
      }
    }

    /** ikcp_input: any bytes at all; a malformed segment ends the call with an error. */
    method Input(data: seq<byte>) returns (ret: int)
      requires Valid()
      modifies `rmtWnd, `sndBuf, `nsndBuf, `sndUna, `rtt, `probe, `cong
      modifies `acklist, `ackcount, acklist
      modifies `rcvNxt, `rcvBuf, `rcvQue, `nrcvBuf, `nrcvQue
      ensures Valid() && (acklist == old(acklist) || fresh(acklist))
      ensures InputResult(View(), ret) == InputBytes(cfg, old(View()), data)
    {
      hide Diff, InputSeg, Parse, Fits, EndInput;
      var prevUna := sndUna;
      var maxack := NoAck;
      if |data| < OVERHEAD {
        return -1;
      }
      var b := data;
      while true
        invariant Valid() && (acklist == old(acklist) || fresh(acklist))
        invariant maxack.MaxAck? ==> IsU32(maxack.sn)
        invariant InputLoop(cfg, View(), maxack, b, prevUna) == InputLoop(cfg, old(View()), NoAck, data, prevUna)
        decreases |b|
      {
        ParseShort(cfg.conv, b);
        if |b| < OVERHEAD {
          break;
        }
        var err, w, rest := ReadSegment(b);
        if err != 0 {
          return err;
        }
        FitsNumber(w);
        ProcessSegment(w);
        if w.cmd == CMD_ACK {
          if maxack.NoAck? || Diff(Ring32, w.sn, maxack.sn) > 0 {
            maxack := MaxAck(w.sn);
          }
        }
        b := rest;
      }
      EndOfInput(maxack, prevUna);
      return 0;
    }

    /** Decodes the header at the front of the input and checks it. */
    method ReadSegment(b: seq<byte>) returns (err: int, w: Wire, rest: seq<byte>)
      requires Valid() && |b| >= OVERHEAD
      ensures err == 0 || err == -1 || err == -2 || err == -3
      ensures Parse(cfg.conv, b) ==
        if err == -1 then BadConv else if err == -2 then BadLength else if err == -3 then BadCommand else Segment(w, rest)
      ensures err == 0 ==> Fits(w) && |rest| < |b|
    {
      hide Decode16, Decode32;
      w, rest := Wire(CMD_WINS, 0, 0, 0, 0, 0, []), b;
      if Decode32(b) != cfg.conv {
        return -1, w, rest;
      }
      var cmd, frg, wnd := b[4], b[5], Decode16(b[6..]);
      var ts, sn, una, len := Decode32(b[8..]), Decode32(b[12..]), Decode32(b[16..]), Decode32(b[20..]);
      if |b| - OVERHEAD < len || len >= 0x8000_0000 {
        return -2, w, rest;
      }
      if cmd != CMD_PUSH && cmd != CMD_ACK && cmd != CMD_WASK && cmd != CMD_WINS {
        return -3, w, rest;
      }
      return 0, Wire(cmd, frg, wnd, ts, sn, una, b[OVERHEAD..OVERHEAD + len]), b[OVERHEAD + len..];
    }

    /** What ikcp_input does after its loop. */
    method EndOfInput(maxack: MaxAck, prevUna: int)
      requires Valid() && (maxack.MaxAck? ==> IsU32(maxack.sn))
      modifies `sndBuf, `cong
      ensures Valid()
      ensures View() == EndInput(Ring32, cfg, old(View()), maxack, prevUna)
    {
      hide Diff, Skip, Grow;
      if maxack.MaxAck? {
        ParseFastack(maxack.sn);
      }
      if Diff(Ring32, sndUna, prevUna) > 0 {
        GrowWindow();
      }
    }

    // -------------------------------------------------------------------
    // Receiving
    // -------------------------------------------------------------------

    /** The loop that ends ikcp_parse_data and ikcp_recv. */
    method MoveAvailable()
      requires Valid()
      modifies `rcvNxt, `rcvBuf, `rcvQue, `nrcvBuf, `nrcvQue
      ensures Valid()
      ensures View() == old(View()).(rcv := Drain(Ring32, cfg.rcvWnd, old(View()).rcv))
    {
      hide U32, ConfigOk;
      while rcvBuf != [] && rcvBuf[0].sn == rcvNxt && nrcvQue < cfg.rcvWnd
        invariant nrcvBuf == |rcvBuf| && nrcvQue == |rcvQue|
        invariant Drain(Ring32, cfg.rcvWnd, Rcv(rcvNxt, rcvBuf, rcvQue)) == Drain(Ring32, cfg.rcvWnd, old(View()).rcv)
        decreases |rcvBuf|
      {
        var seg := rcvBuf[0];
        rcvBuf := rcvBuf[1..];
        nrcvBuf := nrcvBuf - 1;
        rcvQue := rcvQue + [seg];
        nrcvQue := nrcvQue + 1;
        rcvNxt := U32(rcvNxt + 1);
      }
    }

    /** ikcp_parse_data: scans rcv_buf backwards for the place of the new segment. */
    method ParseData(newseg: RcvSeg)
      requires Valid()
      modifies `rcvNxt, `rcvBuf, `rcvQue, `nrcvBuf, `nrcvQue
      ensures Valid()
      ensures View() == old(View()).(rcv := Receiver.ParseData(Ring32, cfg.rcvWnd, old(View()).rcv, newseg))
    {
      hide Diff, U32, Drain, ConfigOk;
      var sn := newseg.sn;
      if Diff(Ring32, sn, U32(rcvNxt + cfg.rcvWnd)) >= 0 || Diff(Ring32, sn, rcvNxt) < 0 {
        return;
      }
      var repeated := false;
      var p := |rcvBuf|;
      assert rcvBuf[..p] == rcvBuf;
      while p > 0
        invariant 0 <= p <= |rcvBuf|
        invariant FindSlot(Ring32, rcvBuf[..p], sn) == FindSlot(Ring32, rcvBuf, sn)
      {
        var seg := rcvBuf[p - 1];
        assert rcvBuf[..p][..p - 1] == rcvBuf[..p - 1];
        if seg.sn == sn {
          repeated := true;
          break;
        }
        if Diff(Ring32, sn, seg.sn) > 0 {
          break;
        }
        p := p - 1;
      }
      if !repeated {
        rcvBuf := rcvBuf[..p] + [newseg] + rcvBuf[p..];
        nrcvBuf := nrcvBuf + 1;
      }
      MoveAvailable();
    }

    /** ikcp_peeksize. */
    method PeekSize() returns (size: int)
      requires Valid()
      ensures size == Receiver.PeekSize(rcvQue)
    {
      if rcvQue == [] {
        return -1;
      }
      if rcvQue[0].frg == 0 {
        OneFragment(rcvQue);
        return |rcvQue[0].data|;
      }
      if nrcvQue < rcvQue[0].frg + 1 {
        return -1;
      }
      size := 0;
      var i := 0;
      ghost var n := FrontCount(rcvQue);
      while i < |rcvQue|
        invariant 0 <= i < n <= |rcvQue|
        invariant FrontCount(rcvQue[i..]) == n - i
        invariant size == |Bytes(rcvQue[..i])|
      {
        NextFragment(rcvQue, i);
        size := size + |rcvQue[i].data|;
        if rcvQue[i].frg == 0 || i + 1 == |rcvQue| {
          break;
        }
        i := i + 1;
      }
    }

    /**
     ikcp_recv into a buffer of len bytes; a negative len peeks. Fragments up
     to the end of the front message are merged.
     */
    method Recv(len: int) returns (ret: int, data: seq<byte>)
      requires Valid()
      modifies `rcvNxt, `rcvBuf, `rcvQue, `nrcvBuf, `nrcvQue, `probe
      ensures Valid()
      ensures (View(), ret, data) == Engine.Recv(Ring32, cfg, old(View()), len)
    {
      hide Drain, Bytes, FrontCount, Receiver.PeekSize, ConfigOk;
      data := [];
      PeekIsMerged(rcvQue);
      if rcvQue == [] {
        return -1, [];
      }
      var peeksize := PeekSize();
      if peeksize < 0 {
        return -2, [];
      }
      if peeksize > (if len < 0 then -len else len) {
        return -3, [];
      }
      data := Deliver(len < 0);
      ret := |data|;
    }

    /** The part of ikcp_recv that cannot fail. */
    method Deliver(peeking: bool) returns (data: seq<byte>)
      requires Valid() && rcvQue != []
      modifies `rcvNxt, `rcvBuf, `rcvQue, `nrcvBuf, `nrcvQue, `probe
      ensures Valid()
      ensures data == Bytes(old(rcvQue)[..FrontCount(old(rcvQue))])
      ensures View().rcv == Drain(Ring32, cfg.rcvWnd,
        if peeking then old(View()).rcv else old(View()).rcv.(que := old(rcvQue)[FrontCount(old(rcvQue))..]))
      ensures probe == if |rcvQue| < cfg.rcvWnd <= |old(rcvQue)| then old(probe).(tell := true) else old(probe)
    {
      hide Drain, Bytes, FrontCount, ConfigOk;
      var recover := nrcvQue >= cfg.rcvWnd;
      data := MergeFragments(peeking);
      MoveAvailable();
      if nrcvQue < cfg.rcvWnd && recover {
        probe := probe.(tell := true);
      }
    }

    /** The merge loop of ikcp_recv. */
    method MergeFragments(peeking: bool) returns (data: seq<byte>)
      requires Valid() && rcvQue != []
      modifies `rcvQue, `nrcvQue
      ensures Valid()
      ensures data == Bytes(old(rcvQue)[..FrontCount(old(rcvQue))])
      ensures rcvQue == if peeking then old(rcvQue) else old(rcvQue)[FrontCount(old(rcvQue))..]
    {
      data := [];
      var all := rcvQue;
      var i := 0;
      ghost var n := FrontCount(all);
      while i < |all|
        invariant 0 <= i < n <= |all|
        invariant FrontCount(all[i..]) == n - i
        invariant data == Bytes(all[..i])
        invariant nrcvQue == |rcvQue|
        invariant rcvQue == if peeking then all else all[i..]
      {
        NextFragment(all, i);
        var seg := all[i];
        data := data + seg.data;
        if !peeking {
          rcvQue := rcvQue[1..];
          nrcvQue := nrcvQue - 1;
        }
        i := i + 1;
        if seg.frg == 0 || i == |all| {
          break;
        }
      }
    }

    // -------------------------------------------------------------------
    // ikcp_flush
    // -------------------------------------------------------------------

    /**
     The datagram under construction: the head room as it was, then the open
     segments, up to ptr and never past mtu; and what has been handed to the
     output callback since base.
     */
    ghost predicate Filling(room: seq<byte>, base: seq<seq<byte>>, p: Packing, ptr: int)
      reads this, buffer
    {
      && Valid() && |room| == cfg.headRoom
      && cfg.headRoom <= ptr <= cfg.mtu && Size(p.open) == ptr - cfg.headRoom
      && buffer[..ptr] == room + EncodeAll(cfg.conv, p.open)
      && sent == base + EncodeGrams(cfg.conv, p.done)
    }

    /** Copies bytes into the buffer and returns the end of what was written. */
    method Append(ptr: nat, bytes: seq<byte>) returns (end: nat)
      requires ptr + |bytes| <= buffer.Length
      modifies buffer
      ensures end == ptr + |bytes|
      ensures buffer[..end] == old(buffer[..ptr]) + bytes
    {
      end := ptr;
      while end < ptr + |bytes|
        invariant ptr <= end <= ptr + |bytes|
        invariant buffer[..ptr] == old(buffer[..ptr])
        invariant buffer[ptr..end] == bytes[..end - ptr]
        modifies buffer
      {
        buffer[end] := bytes[end - ptr];
        end := end + 1;
      }
      assert buffer[..end] == buffer[..ptr] + buffer[ptr..end];
    }

    /** ikcp_encode_seg. */
    method EncodeSeg(ptr: nat, w: Wire) returns (end: nat)
      requires ptr + OVERHEAD <= buffer.Length
      modifies buffer
      ensures end == ptr + OVERHEAD
      ensures buffer[..end] == old(buffer[..ptr]) + Header(cfg.conv, w)
    {
      hide Encode32, Encode16;
      end := Append(ptr, Encode32(cfg.conv));
      end := Append(end, [w.cmd % 256, w.frg % 256]);
      end := Append(end, Encode16(w.wnd));
      end := Append(end, Encode32(w.ts));
      end := Append(end, Encode32(w.sn));
      end := Append(end, Encode32(w.una));
      end := Append(end, Encode32(|w.data|));
    }

    /** ikcp_output: size counts the head room, which the callback fills in. */
    method Output(size: nat)
      requires cfg.headRoom <= size <= buffer.Length && cfg.headRoom >= 0
      modifies `sent
      ensures sent == old(sent) + [buffer[cfg.headRoom..size]]
    {
      sent := sent + [buffer[cfg.headRoom..size]];
    }

    /** Hands over the open datagram if the next segment would not fit. */
    method MakeRoom(ptr: nat, need: nat, ghost room: seq<byte>, ghost base: seq<seq<byte>>, ghost p: Packing)
        returns (begin: nat)
      requires Filling(room, base, p, ptr)
      modifies `sent
      ensures begin == if ptr + need > cfg.mtu then cfg.headRoom else ptr
      ensures Filling(room, base, if ptr + need > cfg.mtu then Packing(p.done + [p.open], []) else p, begin)
    {
      hide ConfigOk, EncodeAll;
      HeadRoomOk(cfg);
      begin := ptr;
      if ptr + need > cfg.mtu {
        assert buffer[cfg.headRoom..ptr] == EncodeAll(cfg.conv, p.open);
        Output(ptr);
        GramsAppend(cfg.conv, p.done, p.open);
        FillingStarts(cfg.conv, base);
        assert room + EncodeAll(cfg.conv, []) == room;
        assert buffer[..cfg.headRoom] == buffer[..ptr][..cfg.headRoom] == room;
        begin := cfg.headRoom;
      }
    }

    /** Writes one segment into the datagram under construction. */
    method PutSeg(ptr: nat, w: Wire, ghost room: seq<byte>, ghost base: seq<seq<byte>>, ghost p: Packing)
        returns (end: nat)
      requires Filling(room, base, p, ptr) && Need(w) <= cfg.mtu - cfg.headRoom
      modifies `sent, buffer
      ensures Filling(room, base, Put(cfg.mtu - cfg.headRoom, p, w), end)
    {
      hide ConfigOk, EncodeAll, Header, Size;
      HeadRoomOk(cfg);
      ghost var q := if ptr + Need(w) > cfg.mtu then Packing(p.done + [p.open], []) else p;
      var begin := MakeRoom(ptr, OVERHEAD + |w.data|, room, base, p);
      end := EncodeSeg(begin, w);
      end := Append(end, w.data);
      SegmentAppended(cfg.conv, room, q.open, w);
      SizeAppend(q.open, w);
      assert [] + [w] == [w];
    }

    /** ikcp_wnd_unused. */
    method WndUnused() returns (wnd: int)
      requires Valid()
      ensures wnd == Engine.WndUnused(cfg, View())
    {
      if nrcvQue < cfg.rcvWnd {
        return cfg.rcvWnd - nrcvQue;
      }
      return 0;
    }

    /** The loop over acklist; last is the number and time stamp left in the segment it reuses. */
    method PutAcks(ptr: nat, ghost k: Kcb, ghost room: seq<byte>, ghost base: seq<seq<byte>>, ghost p: Packing)
        returns (end: nat, last: Ack)
      requires Filling(room, base, p, ptr) && k.rcv == View().rcv
      modifies `sent, buffer
      ensures Filling(room, base, PutAll(cfg.mtu - cfg.headRoom, p, AckWires(cfg, k, acklist[..ackcount])), end)
      ensures last == LastAck(acklist[..ackcount])
    {
      hide ConfigOk, EncodeAll, Size, Put;
      HeadRoomOk(cfg);
      var wnd := WndUnused();
      last := Ack(0, 0);
      end := ptr;
      var i := 0;
      while i < ackcount
        invariant 0 <= i <= ackcount && Valid() && |room| == cfg.headRoom
        invariant Filling(room, base, PutAll(cfg.mtu - cfg.headRoom, p, AckWires(cfg, k, acklist[..i])), end)
        invariant last == LastAck(acklist[..i])
        modifies `sent, buffer
      {
        OneMoreAck(cfg, k, p, acklist[..ackcount], i);
        assert acklist[..ackcount][..i] == acklist[..i];
        last := acklist[i];
        end := PutSeg(end, Wire(CMD_ACK, 0, wnd, last.ts, last.sn, rcvNxt, []), room, base,
                      PutAll(cfg.mtu - cfg.headRoom, p, AckWires(cfg, k, acklist[..i])));
        assert acklist[..ackcount][..i + 1] == acklist[..i + 1];
        i := i + 1;
      }
    }

    /** Probing of a closed window: the back-off. */
    method ScheduleProbe()
      requires Valid()
      modifies `probe
      ensures Valid() && probe == NextProbe(old(probe), rmtWnd, current)
    {
      if rmtWnd == 0 {
        if probe.wait == 0 {
          probe := probe.(wait := PROBE_INIT);
          probe := probe.(ts := U32(current + probe.wait));
        } else if TimeDiff(current, probe.ts) >= 0 {
          if probe.wait < PROBE_INIT {
            probe := probe.(wait := PROBE_INIT);
          }
          probe := probe.(wait := U32(probe.wait + probe.wait / 2));
          if probe.wait > PROBE_LIMIT {
            probe := probe.(wait := PROBE_LIMIT);
          }
          probe := probe.(ts := U32(current + probe.wait), ask := true);
        }
      } else {
        probe := probe.(ts := 0, wait := 0);
      }
    }

    /** The two probe segments, when they are due. */
    method PutProbes(ptr: nat, last: Ack, ghost k: Kcb, ghost room: seq<byte>, ghost base: seq<seq<byte>>, ghost p: Packing)
        returns (end: nat)
      requires Filling(room, base, p, ptr) && k.rcv == View().rcv && last == LastAck(k.acks)
      modifies `sent, `probe, buffer
      ensures Filling(room, base, PutAll(cfg.mtu - cfg.headRoom, p, ProbeWires(cfg, k, old(probe))), end)
      ensures probe == old(probe).(ask := false, tell := false)
    {
      hide ConfigOk, EncodeAll, Size, Put;
      HeadRoomOk(cfg);
      var wnd := WndUnused();
      end := ptr;
      ghost var q := p;
      if probe.ask {
        end := PutSeg(end, Wire(CMD_WASK, 0, wnd, last.ts, last.sn, rcvNxt, []), room, base, q);
        q := Put(cfg.mtu - cfg.headRoom, q, Control(cfg, k, CMD_WASK, last));
      }
      if probe.tell {
        end := PutSeg(end, Wire(CMD_WINS, 0, wnd, last.ts, last.sn, rcvNxt, []), room, base, q);
        q := Put(cfg.mtu - cfg.headRoom, q, Control(cfg, k, CMD_WINS, last));
      }
      TwoProbes(cfg, k, probe, p);
      probe := probe.(ask := false, tell := false);
    }

    /** Numbers queued fragments while the window has room. */
    method MoveToSndBuf(window: int)
      requires Valid()
      modifies `sndNxt, `sndBuf, `sndQue, `nsndBuf, `nsndQue
      ensures Valid()
      ensures View() == old(View()).(snd := Fill(Ring32, old(View()).snd, window, current, rtt.rto))
    {
      hide Diff, U32, ConfigOk;
      while Diff(Ring32, sndNxt, U32(sndUna + window)) < 0
        invariant nsndBuf == |sndBuf| && nsndQue == |sndQue|
        invariant Fill(Ring32, Snd(sndUna, sndNxt, sndBuf, sndQue), window, current, rtt.rto)
               == Fill(Ring32, old(View()).snd, window, current, rtt.rto)
        decreases |sndQue|
      {
        if sndQue == [] {
          break;
        }
        var newseg := SndSeg(sndNxt, sndQue[0], current, rtt.rto, 0, 0);
        sndQue := sndQue[1..];
        sndBuf := sndBuf + [newseg];
        nsndQue := nsndQue - 1;
        nsndBuf := nsndBuf + 1;
        sndNxt := U32(sndNxt + 1);
      }
    }

    /** Decides whether a segment is sent now, and when it is due again. */
    method Reschedule(seg: SndSeg) returns (next: SndSeg, needsend: bool, lost: bool, change: bool)
      requires Valid()
      modifies `xmit
      ensures Valid()
      ensures var kind := KindOf(cfg, current, seg);
        && next == Sweep(cfg, current, rtt.rto, seg) && needsend == !kind.Quiet?
        && lost == kind.Timeout? && change == kind.Fast?
        && xmit == if lost then U32(old(xmit) + 1) else old(xmit)
    {
      hide U32, I32, ConfigOk;
      var resent := if cfg.fastResend > 0 then cfg.fastResend else 0xffff_ffff;
      var rtomin := if cfg.nodelay == 0 then rtt.rto / 8 else 0;
      next, needsend, lost, change := seg, false, false, false;
      if seg.xmit == 0 {
        needsend := true;
        next := next.(xmit := U32(next.xmit + 1), rto := rtt.rto);
        next := next.(resendts := U32(current + next.rto + rtomin));
      } else if TimeDiff(current, seg.resendts) >= 0 {
        needsend := true;
        next := next.(xmit := U32(next.xmit + 1));
        xmit := U32(xmit + 1);
        if cfg.nodelay == 0 {
          next := next.(rto := U32(next.rto + Max(next.rto, rtt.rto)));
        } else {
          var step := if cfg.nodelay < 2 then I32(next.rto) else rtt.rto;
          next := next.(rto := U32(next.rto + TruncDiv(step, 2)));
        }
        next := next.(resendts := U32(current + next.rto));
        lost := true;
      } else if seg.fastack >= resent {
        if I32(seg.xmit) <= cfg.fastLimit || cfg.fastLimit <= 0 {
          needsend := true;
          next := next.(xmit := U32(next.xmit + 1), fastack := 0);
          next := next.(resendts := U32(current + next.rto));
          change := true;
        }
      }
    }

    /** One turn of the loop that sends data segments. */
    method TransmitOne(ptr: nat, i: nat, wait: int, wnd: int, ghost k: Kcb,
                       ghost room: seq<byte>, ghost base: seq<seq<byte>>, ghost t: Turn)
        returns (end: nat, soonest: int, lost: bool, change: bool)
      requires Filling(room, base, t.p, ptr) && k.rcv == View().rcv && wnd == Engine.WndUnused(cfg, k)
      requires i < |sndBuf| && |sndBuf[i].frag.data| <= cfg.mss
      requires wait == t.wait && xmit == t.xmit && dead == t.dead
      modifies `sndBuf, `xmit, `dead, `sent, buffer
      ensures sndBuf == old(sndBuf)[i := Sweep(cfg, current, rtt.rto, old(sndBuf)[i])]
      ensures var t' := TurnOne(cfg, k, current, rtt.rto, old(sndBuf)[i], t);
        && Filling(room, base, t'.p, end)
        && soonest == t'.wait && xmit == t'.xmit && dead == t'.dead
        && t'.lost == (if lost then t.lost + 1 else t.lost) && t'.fast == if change then t.fast + 1 else t.fast
    {
      hide ConfigOk, EncodeAll, Size, Put, Sweep, KindOf, I32, U32, EncodeGrams, Engine.WndUnused;
      HeadRoomOk(cfg);
      end := ptr;
      var seg, needsend := sndBuf[i], false;
      ghost var before := seg;
      seg, needsend, lost, change := Reschedule(seg);
      sndBuf := sndBuf[i := seg];
      if needsend {
        SweepKeeps(cfg, current, rtt.rto, before);
        end := PutSeg(end, Wire(CMD_PUSH, seg.frag.frg, wnd, current, seg.sn, rcvNxt, seg.frag.data), room, base, t.p);
        if seg.xmit >= cfg.deadLink {
          dead := true;
        }
      }
      var diff := TimeDiff(seg.resendts, current);
      soonest := if diff > 0 && diff < wait then diff else wait;
    }

    /** The loop that sends data segments. */
    method Transmit(ptr: nat, ghost k: Kcb, ghost room: seq<byte>, ghost base: seq<seq<byte>>, ghost p: Packing)
        returns (end: nat, wait: int, lost: bool, change: nat)
      requires Filling(room, base, p, ptr) && k.rcv == View().rcv && Valid()
      requires forall i :: 0 <= i < |sndBuf| ==> |sndBuf[i].frag.data| <= cfg.mss
      modifies `sndBuf, `xmit, `dead, `sent, buffer
      ensures var t := TurnAll(cfg, k, current, rtt.rto, old(sndBuf), Turn(p, cfg.interval, 0, 0, old(xmit), old(dead)));
        && Filling(room, base, t.p, end) && wait == t.wait && lost == (t.lost > 0) && change == t.fast
        && xmit == t.xmit && dead == t.dead
      ensures sndBuf == SweepAll(cfg, current, rtt.rto, old(sndBuf))
    {
      hide Filling, Valid, TurnOne, Sweep;
      var wnd := WndUnused();
      end, wait, lost, change := ptr, cfg.interval, false, 0;
      ghost var all := sndBuf;
      ghost var t := Turn(p, cfg.interval, 0, 0, xmit, dead);
      var i := 0;
      assert all[0..] == all;
      while i < |sndBuf|
        invariant 0 <= i <= |sndBuf| == |all|
        invariant Filling(room, base, t.p, end)
        invariant wait == t.wait && lost == (t.lost > 0) && change == t.fast && xmit == t.xmit && dead == t.dead
        invariant TurnAll(cfg, k, current, rtt.rto, all[i..], t)
               == TurnAll(cfg, k, current, rtt.rto, all, Turn(p, cfg.interval, 0, 0, old(xmit), old(dead)))
        invariant forall j :: 0 <= j < i ==> sndBuf[j] == Sweep(cfg, current, rtt.rto, all[j])
        invariant sndBuf[i..] == all[i..]
        modifies `sndBuf, `xmit, `dead, `sent, buffer
      {
        assert sndBuf[i] == sndBuf[i..][0] == all[i];
        assert all[i..][1..] == all[i + 1..];
        var late, fast;
        ghost var t1 := TurnOne(cfg, k, current, rtt.rto, all[i], t);
        end, wait, late, fast := TransmitOne(end, i, wait, wnd, k, room, base, t);
        lost := lost || late;
        change := if fast then change + 1 else change;
        t := t1;
        i := i + 1;
      }
      assert all[i..] == [];
    }

    /** Congestion control after the loop. */
    method UpdateCongestion(window: int, lost: bool, change: bool)
      requires Valid()
      modifies `cong
      ensures Valid()
      ensures View() == old(View()).(cong := AfterLoss(cfg, old(cong), U32(sndNxt - sndUna), window, change, lost))
    {
      hide ConfigOk, U32;
      if change {
        var inflight := U32(sndNxt - sndUna);
        cong := cong.(ssthresh := inflight / 2);
        if cong.ssthresh < THRESH_MIN {
          cong := cong.(ssthresh := THRESH_MIN);
        }
        cong := cong.(cwnd := U32(cong.ssthresh + FastThreshold(cfg)));
        cong := cong.(incr := U32(cong.cwnd * cfg.mss));
      }
      if lost {
        cong := cong.(ssthresh := window / 2);
        if cong.ssthresh < THRESH_MIN {
          cong := cong.(ssthresh := THRESH_MIN);
        }
        cong := cong.(cwnd := 1, incr := cfg.mss);
      }
      if cong.cwnd < 1 {
        cong := cong.(cwnd := 1, incr := cfg.mss);
      }
    }

    /** Hands over what is left in the buffer. */
    method FlushRemaining(ptr: nat, ghost room: seq<byte>, ghost base: seq<seq<byte>>, ghost p: Packing)
      requires Filling(room, base, p, ptr)
      modifies `sent
      ensures Valid() && sent == base + EncodeGrams(cfg.conv, Finish(p)) && buffer[..cfg.headRoom] == room
    {
      hide ConfigOk, EncodeAll;
      HeadRoomOk(cfg);
      assert buffer[..cfg.headRoom] == buffer[..ptr][..cfg.headRoom] == room;
      EmptyOpen(p.open);
      if ptr > cfg.headRoom {
        assert buffer[cfg.headRoom..ptr] == EncodeAll(cfg.conv, p.open);
        Output(ptr);
        GramsAppend(cfg.conv, p.done, p.open);
      }
    }

    /** The first half of ikcp_flush: acknowledgements and probes. */
    method FlushControls(ghost k: Kcb, ghost room: seq<byte>, ghost base: seq<seq<byte>>) returns (ptr: nat)
      requires Filling(room, base, Packing([], []), cfg.headRoom) && View() == k.(current := current)
      modifies `ackcount, `probe, `sent, buffer
      ensures Filling(room, base, Controls(cfg, k, current), ptr)
      ensures View() == k.(current := current, acks := [],
        probe := NextProbe(k.probe, k.rmtWnd, current).(ask := false, tell := false))
    {
      hide ConfigOk, U32, LastAck, Put, AckWires, ProbeWires, PutAll, EncodeAll, EncodeGrams, NextProbe;
      HeadRoomOk(cfg);
      var last;
      ptr := cfg.headRoom;
      ptr, last := PutAcks(ptr, k, room, base, Packing([], []));
      ackcount := 0;
      ScheduleProbe();
      ptr := PutProbes(ptr, last, k, room, base,
                       PutAll(cfg.mtu - cfg.headRoom, Packing([], []), AckWires(cfg, k, k.acks)));
    }

    /** Fills the window and sends what is due, to the last datagram. */
    method SendData(ptr: nat, window: int, ghost k: Kcb, ghost room: seq<byte>, ghost base: seq<seq<byte>>, ghost p: Packing)
        returns (wait: int, lost: bool, change: bool)
      requires Filling(room, base, p, ptr) && KcbInv(Ring32, cfg, k)
      requires View() == k.(current := current, acks := [], probe := View().probe) && window == SendWindow(cfg, k)
      modifies `sndNxt, `sndBuf, `sndQue, `nsndBuf, `nsndQue, `xmit, `dead, `sent, buffer
      ensures Valid() && buffer[..cfg.headRoom] == room
      ensures var s := Filled(Ring32, cfg, k, current);
        && View() == old(View()).(snd := s.(buf := SweepAll(cfg, current, k.rtt.rto, s.buf)),
             xmit := U32(k.xmit + CountKind(cfg, current, s.buf, Timeout)),
             dead := k.dead || AnyExhausted(cfg, current, s.buf))
        && wait == NextDeadline(current, sndBuf, cfg.interval)
        && lost == (CountKind(cfg, current, s.buf, Timeout) > 0)
        && change == (CountKind(cfg, current, s.buf, Fast) > 0)
        && sent == base + EncodeGrams(cfg.conv,
             Finish(PutAll(cfg.mtu - cfg.headRoom, p, PushWires(cfg, k, current, s.buf))))
    {
      hide KcbInv, ConfigOk, Put, Fill, SweepAll, CountKind, AnyExhausted, PushWires, NextDeadline,
        PutAll, EncodeAll, EncodeGrams, U32, TurnAll, Size, SendWindow, Finish, Filling, Valid;
      AlreadyU32(xmit);
      FillWindow(ptr, window, room, base, p);
      FilledFits(cfg, k, current);
      ghost var buf := sndBuf;
      var end, turns;
      end, wait, lost, turns := Transmit(ptr, k, room, base, p);
      change := turns > 0;
      TurnAllIs(cfg, k, current, rtt.rto, buf, Turn(p, cfg.interval, 0, 0, k.xmit, k.dead));
      FlushRemaining(end, room, base, PutAll(cfg.mtu - cfg.headRoom, p, PushWires(cfg, k, current, buf)));
    }

    /** ikcp_calc_wnd, with the congestion window: how many numbers may be in flight. */
    method CalcWnd() returns (window: int)
      requires Valid()
      ensures window == SendWindow(cfg, View())
    {
      window := Min(cfg.sndWnd, rmtWnd);
      if !cfg.noCwnd {
        window := Min(cong.cwnd, window);
      }
    }

    /** Numbering fragments does not disturb the datagram under construction. */
    method FillWindow(ptr: nat, window: int, ghost room: seq<byte>, ghost base: seq<seq<byte>>, ghost p: Packing)
      requires Filling(room, base, p, ptr)
      modifies `sndNxt, `sndBuf, `sndQue, `nsndBuf, `nsndQue
      ensures Filling(room, base, p, ptr) && Valid() && ConfigOk(cfg)
      ensures View() == old(View()).(snd := Fill(Ring32, old(View()).snd, window, current, rtt.rto))
    {
      hide ConfigOk, EncodeAll, Size, EncodeGrams, Fill;
      MoveToSndBuf(window);
    }

    lemma FillingValid(room: seq<byte>, base: seq<seq<byte>>, p: Packing, ptr: int)
      requires Filling(room, base, p, ptr)
      ensures Valid()
    {
    }

    /** The second half: fills the window, sends data, and adjusts the congestion window. */
    method FlushData(ptr: nat, ghost k: Kcb, ghost room: seq<byte>, ghost base: seq<seq<byte>>, ghost p: Packing)
        returns (wait: int)
      requires Filling(room, base, p, ptr) && KcbInv(Ring32, cfg, k)
      requires View() == k.(current := current, acks := [], probe := View().probe)
      modifies `sndNxt, `sndBuf, `sndQue, `nsndBuf, `nsndQue, `xmit, `dead, `cong, `sent, buffer
      ensures Valid() && buffer[..cfg.headRoom] == room
      ensures View() == DataFlushed(cfg, k, current, old(probe))
      ensures wait == NextDeadline(current, sndBuf, cfg.interval)
      ensures sent == base + EncodeGrams(cfg.conv,
        Finish(PutAll(cfg.mtu - cfg.headRoom, p, PushWires(cfg, k, current, Filled(Ring32, cfg, k, current).buf))))
    {
      hide KcbInv, ConfigOk, Filled, SweepAll, CountKind, AnyExhausted, PushWires, NextDeadline, AckWires, ProbeWires,
        PutAll, EncodeGrams, AfterLoss, NextProbe, U32, Filling, Finish, Valid;
      FillingValid(room, base, p, ptr);
      var window := CalcWnd();
      var lost, change;
      wait, lost, change := SendData(ptr, window, k, room, base, p);
      UpdateCongestion(window, lost, change);
    }

    /**
     ikcp_flush: sends what is due in datagrams of at most mtu bytes, and
     returns how long the next call may wait. The head room is not touched.
     */
    method Flush(now: u32) returns (wait: int)
      requires Valid() && KcbInv(Ring32, cfg, View())
      modifies `current, `ackcount, `probe, `sndNxt, `sndBuf, `sndQue, `nsndBuf, `nsndQue
      modifies `xmit, `dead, `cong, `sent, buffer
      ensures Valid() && buffer[..cfg.headRoom] == old(buffer[..cfg.headRoom])
      ensures var f := Engine.Flush(Ring32, cfg, old(View()), now);
        && View() == f.k && wait == f.wait
        && sent == old(sent) + EncodeGrams(cfg.conv, Datagrams(cfg, f.wires))
    {
      hide KcbInv, ConfigOk, Put, Filled, SweepAll, CountKind, AnyExhausted, PushWires, NextDeadline, AckWires, ProbeWires,
        PutAll, EncodeAll, EncodeGrams, AfterLoss, NextProbe, DataFlushed, Engine.Flush;
      HeadRoomOk(cfg);
      ghost var k, room, base := View(), buffer[..cfg.headRoom], sent;
      FillingStarts(cfg.conv, base);
      current := now;
      assert buffer[..cfg.headRoom] == room + [];
      var ptr := FlushControls(k, room, base);
      wait := FlushData(ptr, k, room, base, Controls(cfg, k, now));
      DataFlushedIs(cfg, k, now);
      PackIs(cfg, AckWires(cfg, k, k.acks), ProbeWires(cfg, k, NextProbe(k.probe, k.rmtWnd, now)),
             PushWires(cfg, k, now, Filled(Ring32, cfg, k, now).buf));
    }

    /** ikcp_flush_ack: only the pending acknowledgements. */
    method FlushAck()
      requires Valid()
      modifies `ackcount, `sent, buffer
      ensures Valid()
      ensures View() == old(View()).(acks := [])
      ensures sent == old(sent) + EncodeGrams(cfg.conv, Datagrams(cfg, AckWires(cfg, old(View()), old(View()).acks)))
      ensures buffer[..cfg.headRoom] == old(buffer[..cfg.headRoom])
    {
      hide ConfigOk, Put, AckWires, PutAll, EncodeAll, EncodeGrams;
      HeadRoomOk(cfg);
      ghost var k, room, base := View(), buffer[..cfg.headRoom], sent;
      ghost var p := Packing([], []);
      FillingStarts(cfg.conv, base);
      NoAcks(cfg, k);
      if ackcount <= 0 {
        return;
      }
      var ptr: nat := cfg.headRoom;
      var last;
      assert buffer[..ptr] == room + [];
      ptr, last := PutAcks(ptr, k, room, base, p);
      FlushRemaining(ptr, room, base, PutAll(cfg.mtu - cfg.headRoom, p, AckWires(cfg, k, k.acks)));
      ackcount := 0;
    }
  }
}
