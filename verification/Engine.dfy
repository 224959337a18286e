/**
 The KCP control block as a value, and each public operation as a function of
 it: what ikcp_input, ikcp_flush, ikcp_write and ikcp_recv compute.

 The functions that compare sequence numbers take the ring these live in. Time
 stamps are 32-bit numbers throughout.
 */
module Engine {
  import opened SerialArith
  import opened Receiver
  import opened Sender
  import opened Codec
  import Fragments

  const RTO_MAX: int := 60000
  const PROBE_INIT: int := 7000
  const PROBE_LIMIT: int := 120000
  const THRESH_MIN: int := 2

  /** What KCPSession::Initialize fixes before the first packet. */
  datatype Config = Config(
    conv: u32, mtu: int, mss: int, headRoom: int, sndWnd: int, rcvWnd: int,
    interval: int, nodelay: int, minRto: int, fastResend: int, fastLimit: int,
    noCwnd: bool, stream: bool, deadLink: int)

  /** A pending acknowledgement: the number and time stamp to echo. */
  datatype Ack = Ack(sn: int, ts: int)

  /** Congestion control. */
  datatype Cong = Cong(cwnd: int, incr: int, ssthresh: int)

  /** Round-trip estimation. */
  datatype Rtt = Rtt(srtt: int, rttval: int, rto: int)

  /** Window probing: the pending flags, the back-off and the next probe time. */
  datatype Probe = Probe(ask: bool, tell: bool, wait: int, ts: int)

  datatype Kcb = Kcb(
    snd: Snd, rcv: Rcv, acks: seq<Ack>, cong: Cong, rtt: Rtt, probe: Probe,
    rmtWnd: int, current: int, xmit: int, dead: bool)

  /** ikcp_create followed by the configuration of a session. */
  function Fresh(cfg: Config): Kcb {
    Kcb(Snd(0, 0, [], []), Rcv(0, [], []), [], Cong(1, 1376, THRESH_MIN), Rtt(0, 0, 200),
        Probe(false, false, 0, 0), 128, 0, 0, false)
  }

  // ---------------------------------------------------------------------
  // ikcp_input
  // ---------------------------------------------------------------------

  /** ikcp_update_ack, in wrapping signed arithmetic. */
  function UpdateAck(cfg: Config, t: Rtt, sample: int): Rtt {
    var t' :=
      if t.srtt == 0 then t.(srtt := sample, rttval := TruncDiv(sample, 2))
      else
        var d := I32(sample - t.srtt);
        var delta := if d < 0 then -d else d;
        var srtt := TruncDiv(I32(7 * t.srtt + sample), 8);
        t.(rttval := I32(TruncDiv(I32(3 * t.rttval) + delta, 4)), srtt := if srtt < 1 then 1 else srtt);
    t'.(rto := Bound(cfg.minRto, U32(t'.srtt + Max(cfg.interval, U32(4 * t'.rttval))), RTO_MAX))
  }

  /** One segment of ikcp_input's loop. */
  function InputSeg(r: Ring, cfg: Config, k: Kcb, w: Wire): Kcb {
    var k1 := k.(rmtWnd := w.wnd, snd := ParseUna(r, k.snd, w.una));
    if w.cmd == CMD_ACK then
      var sample := TimeDiff(k.current, w.ts);
      k1.(rtt := if sample >= 0 then UpdateAck(cfg, k.rtt, sample) else k.rtt, snd := ParseAck(r, k1.snd, w.sn))
    else if w.cmd == CMD_PUSH then
      if Diff(r, w.sn, Norm(r, k.rcv.nxt + cfg.rcvWnd)) < 0 then
        k1.(acks := k.acks + [Ack(w.sn, w.ts)],
            rcv := if Diff(r, w.sn, k.rcv.nxt) >= 0
                   then ParseData(r, cfg.rcvWnd, k.rcv, RcvSeg(w.sn, w.frg, w.data))
                   else k.rcv)
      else k1
    else if w.cmd == CMD_WASK then k1.(probe := k.probe.(tell := true))
    else k1
  }

  /** The largest number acknowledged by this input so far. */
  datatype MaxAck = NoAck | MaxAck(sn: int)

  function NextMax(r: Ring, m: MaxAck, w: Wire): MaxAck {
    if w.cmd != CMD_ACK then m
    else if m.NoAck? then MaxAck(w.sn)
    else if Diff(r, w.sn, m.sn) > 0 then MaxAck(w.sn)
    else m
  }

  /** Slow start: one more segment. */
  function SlowStart(mss: int, c: Cong): Cong {
    c.(cwnd := U32(c.cwnd + 1), incr := U32(c.incr + mss))
  }

  /** Congestion avoidance, in bytes: about one more segment per round trip. */
  function AvoidBytes(mss: int, incr: int): int
    requires incr != 0
  {
    U32(incr + U32(mss * mss) / incr + mss / 16)
  }

  /** The window in segments, rounded up once the byte window has reached the next one. */
  function AvoidSegs(mss: int, cwnd: int, incr: int): int
    requires mss > 0
  {
    if U32((cwnd + 1) * mss) <= incr then U32(incr + mss - 1) / mss else cwnd
  }

  function Avoidance(mss: int, c: Cong): Cong
    requires mss > 0
  {
    var incr := AvoidBytes(mss, if c.incr < mss then mss else c.incr);
    c.(incr := incr, cwnd := AvoidSegs(mss, c.cwnd, incr))
  }

  /** Opens the congestion window after snd_una has advanced. */
  function Grow(mss: int, c: Cong, rmtWnd: int): Cong
    requires mss > 0
  {
    if c.cwnd >= rmtWnd then c
    else
      var c1 := if c.cwnd < c.ssthresh then SlowStart(mss, c) else Avoidance(mss, c);
      if c1.cwnd > rmtWnd then c1.(cwnd := rmtWnd, incr := U32(rmtWnd * mss)) else c1
  }

  /** What ikcp_input does after the last segment. */
  function EndInput(r: Ring, cfg: Config, k: Kcb, m: MaxAck, prevUna: int): Kcb
    requires cfg.mss > 0
  {
    var k1 := if m.MaxAck? then k.(snd := ParseFastack(r, k.snd, m.sn)) else k;
    if Diff(r, k1.snd.una, prevUna) > 0 then k1.(cong := Grow(cfg.mss, k1.cong, k1.rmtWnd)) else k1
  }

  /** The loop of ikcp_input over segments that have been parsed already. */
  function InputSegs(r: Ring, cfg: Config, k: Kcb, m: MaxAck, ws: seq<Wire>): (Kcb, MaxAck)
    decreases |ws|
  {
    if ws == [] then (k, m)
    else InputSegs(r, cfg, InputSeg(r, cfg, k, ws[0]), NextMax(r, m, ws[0]), ws[1..])
  }

  /** ikcp_input on a well-formed datagram. */
  function Input(r: Ring, cfg: Config, k: Kcb, ws: seq<Wire>): Kcb
    requires cfg.mss > 0
  {
    var (k', m) := InputSegs(r, cfg, k, NoAck, ws);
    EndInput(r, cfg, k', m, k.snd.una)
  }

  datatype InputResult = InputResult(k: Kcb, ret: int)

  /** The loop of ikcp_input over bytes; a malformed segment ends it with an error. */
  function InputLoop(cfg: Config, k: Kcb, m: MaxAck, b: seq<byte>, prevUna: int): InputResult
    requires cfg.mss > 0
    decreases |b|
  {
    match Parse(cfg.conv, b)
    case End => InputResult(EndInput(Ring32, cfg, k, m, prevUna), 0)
    case BadConv => InputResult(k, -1)
    case BadLength => InputResult(k, -2)
    case BadCommand => InputResult(k, -3)
    case Segment(w, rest) =>
      InputLoop(cfg, InputSeg(Ring32, cfg, k, w), NextMax(Ring32, m, w), rest, prevUna)
  }

  function InputBytes(cfg: Config, k: Kcb, b: seq<byte>): InputResult
    requires cfg.mss > 0
  {
    if |b| < OVERHEAD then InputResult(k, -1) else InputLoop(cfg, k, NoAck, b, k.snd.una)
  }

  // ---------------------------------------------------------------------
  // ikcp_flush
  // ---------------------------------------------------------------------

  /** ikcp_wnd_unused: the window to announce. */
  function WndUnused(cfg: Config, k: Kcb): int {
    if |k.rcv.que| < cfg.rcvWnd then cfg.rcvWnd - |k.rcv.que| else 0
  }

  function Control(cfg: Config, k: Kcb, cmd: int, a: Ack): Wire {
    Wire(cmd, 0, WndUnused(cfg, k), a.ts, a.sn, k.rcv.nxt, [])
  }

  function AckWires(cfg: Config, k: Kcb, acks: seq<Ack>): (ws: seq<Wire>)
    ensures |ws| == |acks|
  {
    seq(|acks|, i requires 0 <= i < |acks| => Control(cfg, k, CMD_ACK, acks[i]))
  }

  /** The probes reuse the last acknowledgement's number and time stamp. */
  function LastAck(acks: seq<Ack>): Ack {
    if acks == [] then Ack(0, 0) else acks[|acks| - 1]
  }

  /** Probing a closed remote window: the back-off and whether to ask now. */
  function NextProbe(p: Probe, rmtWnd: int, current: int): Probe {
    if rmtWnd != 0 then p.(wait := 0, ts := 0)
    else if p.wait == 0 then p.(wait := PROBE_INIT, ts := U32(current + PROBE_INIT))
    else if TimeDiff(current, p.ts) >= 0 then
      var wait := Max(p.wait, PROBE_INIT);
      var longer := Min(U32(wait + wait / 2), PROBE_LIMIT);
      p.(ask := true, wait := longer, ts := U32(current + longer))
    else p
  }

  function ProbeWires(cfg: Config, k: Kcb, p: Probe): seq<Wire> {
    (if p.ask then [Control(cfg, k, CMD_WASK, LastAck(k.acks))] else [])
    + (if p.tell then [Control(cfg, k, CMD_WINS, LastAck(k.acks))] else [])
  }

  /** min(snd_wnd, rmt_wnd), and the congestion window when it is in use. */
  function SendWindow(cfg: Config, k: Kcb): int {
    var w := Min(cfg.sndWnd, k.rmtWnd);
    if cfg.noCwnd then w else Min(k.cong.cwnd, w)
  }

  /** Why a segment is (re)transmitted, if it is. */
  datatype Kind = Quiet | First | Timeout | Fast

  function FastThreshold(cfg: Config): int {
    if cfg.fastResend > 0 then cfg.fastResend else 0xffff_ffff
  }

  function KindOf(cfg: Config, current: int, seg: SndSeg): Kind {
    if seg.xmit == 0 then First
    else if TimeDiff(current, seg.resendts) >= 0 then Timeout
    else if seg.fastack >= FastThreshold(cfg) && (I32(seg.xmit) <= cfg.fastLimit || cfg.fastLimit <= 0) then Fast
    else Quiet
  }

  /** The back-off of a segment that timed out. */
  function BackOff(cfg: Config, rxRto: int, rto: int): int {
    if cfg.nodelay == 0 then U32(rto + Max(rto, rxRto))
    else U32(rto + TruncDiv(if cfg.nodelay < 2 then I32(rto) else rxRto, 2))
  }

  /** One turn of the transmission loop. */
  function Sweep(cfg: Config, current: int, rxRto: int, seg: SndSeg): SndSeg {
    match KindOf(cfg, current, seg)
    case Quiet => seg
    case First =>
      var minimum := if cfg.nodelay == 0 then rxRto / 8 else 0;
      seg.(xmit := U32(seg.xmit + 1), rto := rxRto, resendts := U32(current + rxRto + minimum))
    case Timeout =>
      var rto := BackOff(cfg, rxRto, seg.rto);
      seg.(xmit := U32(seg.xmit + 1), rto := rto, resendts := U32(current + rto))
    case Fast =>
      seg.(xmit := U32(seg.xmit + 1), fastack := 0, resendts := U32(current + seg.rto))
  }

  function SweepAll(cfg: Config, current: int, rxRto: int, buf: seq<SndSeg>): (out: seq<SndSeg>)
    ensures |out| == |buf|
    ensures forall i :: 0 <= i < |buf| ==> out[i] == Sweep(cfg, current, rxRto, buf[i])
  {
    if buf == [] then []
    else [Sweep(cfg, current, rxRto, buf[0])] + SweepAll(cfg, current, rxRto, buf[1..])
  }

  /** How many segments of one kind the loop meets. */
  function CountKind(cfg: Config, current: int, buf: seq<SndSeg>, kind: Kind): nat {
    if buf == [] then 0
    else (if KindOf(cfg, current, buf[0]) == kind then 1 else 0) + CountKind(cfg, current, buf[1..], kind)
  }

  function Push(cfg: Config, k: Kcb, current: int, seg: SndSeg): Wire {
    Wire(CMD_PUSH, seg.frag.frg, WndUnused(cfg, k), current, seg.sn, k.rcv.nxt, seg.frag.data)
  }

  /** The data segments the loop transmits, in order. */
  function PushWires(cfg: Config, k: Kcb, current: int, buf: seq<SndSeg>): seq<Wire> {
    if buf == [] then []
    else
      (if KindOf(cfg, current, buf[0]).Quiet? then [] else [Push(cfg, k, current, buf[0])])
      + PushWires(cfg, k, current, buf[1..])
  }

  /** A transmitted segment that has reached the limit marks the link dead. */
  predicate Exhausted(cfg: Config, current: int, seg: SndSeg) {
    !KindOf(cfg, current, seg).Quiet? && U32(seg.xmit + 1) >= cfg.deadLink
  }

  predicate AnyExhausted(cfg: Config, current: int, buf: seq<SndSeg>) {
    exists i :: 0 <= i < |buf| && Exhausted(cfg, current, buf[i])
  }

  /** The time until the next deadline, at most wait. */
  function NextDeadline(current: int, buf: seq<SndSeg>, wait: int): int {
    if buf == [] then wait
    else
      var d := TimeDiff(buf[0].resendts, current);
      NextDeadline(current, buf[1..], if 0 < d < wait then d else wait)
  }

  /** Congestion control after the loop. */
  function AfterLoss(cfg: Config, c: Cong, inflight: int, window: int, fast: bool, lost: bool): Cong {
    var c1 :=
      if fast then
        var thresh := Max(inflight / 2, THRESH_MIN);
        var cwnd := U32(thresh + FastThreshold(cfg));
        Cong(cwnd, U32(cwnd * cfg.mss), thresh)
      else c;
    var c2 := if lost then Cong(1, cfg.mss, Max(window / 2, THRESH_MIN)) else c1;
    if c2.cwnd < 1 then c2.(cwnd := 1, incr := cfg.mss) else c2
  }

  datatype FlushResult = FlushResult(k: Kcb, wires: seq<Wire>, wait: int)

  /** The sender after the window has been filled and before the transmission loop. */
  function Filled(r: Ring, cfg: Config, k: Kcb, current: int): Snd {
    Fill(r, k.snd, SendWindow(cfg, k), current, k.rtt.rto)
  }

  /** ikcp_flush: the new state, the segments sent in order, and the time to wait. */
  function Flush(r: Ring, cfg: Config, k: Kcb, current: int): FlushResult {
    var p := NextProbe(k.probe, k.rmtWnd, current);
    var s := Filled(r, cfg, k, current);
    var buf := SweepAll(cfg, current, k.rtt.rto, s.buf);
    var lost := CountKind(cfg, current, s.buf, Timeout);
    var fast := CountKind(cfg, current, s.buf, Fast);
    FlushResult(
      k.(snd := s.(buf := buf), acks := [], probe := p.(ask := false, tell := false), current := current,
         cong := AfterLoss(cfg, k.cong, Norm(r, s.nxt - s.una), SendWindow(cfg, k), fast > 0, lost > 0),
         xmit := U32(k.xmit + lost), dead := k.dead || AnyExhausted(cfg, current, s.buf)),
      AckWires(cfg, k, k.acks) + ProbeWires(cfg, k, p) + PushWires(cfg, k, current, s.buf),
      NextDeadline(current, buf, cfg.interval))
  }

  /** The datagram bodies of a flush, without the head room in front of each. */
  function Datagrams(cfg: Config, ws: seq<Wire>): seq<seq<Wire>> {
    Pack(cfg.mtu - cfg.headRoom, ws)
  }

  // ---------------------------------------------------------------------
  // ikcp_write and ikcp_recv
  // ---------------------------------------------------------------------

  function Write(cfg: Config, k: Kcb, alwaysStream: bool, data: seq<byte>): (Kcb, int)
    requires cfg.mss > 0
  {
    var w := Fragments.Enqueue(cfg.mss, cfg.stream || alwaysStream, k.snd.que, data);
    (k.(snd := k.snd.(que := w.que)), w.ret)
  }

  function Recv(r: Ring, cfg: Config, k: Kcb, len: int): (Kcb, int, seq<byte>) {
    var v := RecvFront(r, cfg.rcvWnd, k.rcv, len);
    (k.(rcv := v.k, probe := if v.tell then k.probe.(tell := true) else k.probe), v.ret, v.data)
  }
}
