/**
 What ikcp_input makes of a datagram, told by the segments it reads: the window
 it takes over, the answers it owes, the acknowledgements it will send.
 */
module Arrivals {
  import opened SerialArith
  import opened Receiver
  import opened Sender
  import opened Codec
  import opened Engine
  import opened EngineInvariant
  import opened Endpoint
  import opened ByteRuns

  /** The segments an input reads, and whether it reads to the end. */
  function ReadFrom(conv: int, b: seq<byte>): (seq<Wire>, bool) {
    if |b| < OVERHEAD then ([], false) else DecodeAll(conv, b)
  }

  /** The state when the segments have been read and nothing more has been done. */
  function AfterReading(cfg: Config, k: Kcb, ws: seq<Wire>): Kcb {
    InputSegs(Ring32, cfg, k, NoAck, ws).0
  }

  lemma {:induction false} LoopReads(cfg: Config, k: Kcb, m: MaxAck, b: seq<byte>, prevUna: int)
    requires cfg.mss > 0
    ensures var (ws, whole) := DecodeAll(cfg.conv, b);
      var (k', m') := InputSegs(Ring32, cfg, k, m, ws);
      && InputLoop(cfg, k, m, b, prevUna).k == (if whole then EndInput(Ring32, cfg, k', m', prevUna) else k')
      && (InputLoop(cfg, k, m, b, prevUna).ret == 0 <==> whole)
    decreases |b|
  {
    hide Parse, InputSeg, EndInput, NextMax;
    match Parse(cfg.conv, b)
    case Segment(w, rest) =>
      LoopReads(cfg, InputSeg(Ring32, cfg, k, w), NextMax(Ring32, m, w), rest, prevUna);
      var ws := DecodeAll(cfg.conv, rest).0;
      assert ([w] + ws)[1..] == ws;
    case _ =>
  }

  /** On any bytes: the segments are dealt with one by one, and only a whole datagram counts skips and opens the window. */
  lemma InputReads(cfg: Config, k: Kcb, b: seq<byte>)
    requires cfg.mss > 0
    ensures var (ws, whole) := ReadFrom(cfg.conv, b);
      && InputBytes(cfg, k, b).k == (if whole then Input(Ring32, cfg, k, ws) else AfterReading(cfg, k, ws))
      && (InputBytes(cfg, k, b).ret == 0 <==> whole)
  {
    hide InputLoop, EndInput, InputSegs, DecodeAll;
    if |b| >= OVERHEAD {
      LoopReads(cfg, k, NoAck, b, k.snd.una);
    } else {
      NothingRead(cfg, k);
    }
  }

  lemma NothingRead(cfg: Config, k: Kcb)
    ensures AfterReading(cfg, k, []) == k
  {
  }

  lemma {:induction false} ReadInRing(conv: int, b: seq<byte>)
    ensures forall i :: 0 <= i < |DecodeAll(conv, b).0| ==> InRing(Ring32, DecodeAll(conv, b).0[i])
    decreases |b|
  {
    hide Parse, InRing;
    match Parse(conv, b)
    case Segment(w, rest) =>
      ParsedInRing(conv, b);
      ReadInRing(conv, rest);
    case _ =>
  }

  predicate Has(ws: seq<Wire>, cmd: int) {
    exists i :: 0 <= i < |ws| && ws[i].cmd == cmd
  }

  // ---------------------------------------------------------------------
  // The peer's window and its probes
  // ---------------------------------------------------------------------

  /** The window the last segment read has announced, if one has been read. */
  function LastWnd(ws: seq<Wire>, before: int): int {
    if ws == [] then before else ws[|ws| - 1].wnd
  }

  lemma {:induction false} ReadingTells(cfg: Config, k: Kcb, m: MaxAck, ws: seq<Wire>)
    ensures var k' := InputSegs(Ring32, cfg, k, m, ws).0;
      && k'.rmtWnd == LastWnd(ws, k.rmtWnd)
      && k'.probe == k.probe.(tell := k.probe.tell || Has(ws, CMD_WASK))
    decreases |ws|
  {
    hide NextMax, ParseUna, ParseAck, ParseData, UpdateAck, Diff;
    if ws != [] {
      ReadingTells(cfg, InputSeg(Ring32, cfg, k, ws[0]), NextMax(Ring32, m, ws[0]), ws[1..]);
      var rest := ws[1..];
      assert Has(ws, CMD_WASK) <==> ws[0].cmd == CMD_WASK || Has(rest, CMD_WASK) by {
        if i :| 0 <= i < |ws| && ws[i].cmd == CMD_WASK {
          assert i > 0 ==> rest[i - 1].cmd == CMD_WASK;
        }
        if i :| 0 <= i < |rest| && rest[i].cmd == CMD_WASK {
          assert ws[i + 1].cmd == CMD_WASK;
        }
      }
    }
  }

  lemma EndLeaves(cfg: Config, k: Kcb, m: MaxAck, prevUna: int)
    requires cfg.mss > 0
    ensures var k' := EndInput(Ring32, cfg, k, m, prevUna);
      k'.rmtWnd == k.rmtWnd && k'.probe == k.probe && k'.acks == k.acks && k'.rcv == k.rcv && k'.rtt == k.rtt
  {
    hide Grow, ParseFastack, Diff;
  }

  /** On any bytes: the peer's window is the one last announced, and a probe read is to be answered. */
  lemma InputTells(cfg: Config, k: Kcb, b: seq<byte>)
    requires cfg.mss > 0
    ensures var k', ws := InputBytes(cfg, k, b).k, ReadFrom(cfg.conv, b).0;
      && k'.rmtWnd == LastWnd(ws, k.rmtWnd)
      && k'.probe == k.probe.(tell := k.probe.tell || Has(ws, CMD_WASK))
  {
    hide EndInput, InputSegs, InputBytes, ReadFrom;
    InputReads(cfg, k, b);
    var ws := ReadFrom(cfg.conv, b).0;
    var (k', m) := InputSegs(Ring32, cfg, k, NoAck, ws);
    ReadingTells(cfg, k, NoAck, ws);
    EndLeaves(cfg, k', m, k.snd.una);
  }

  // ---------------------------------------------------------------------
  // Acknowledgements owed
  // ---------------------------------------------------------------------

  /** Not at or beyond the end of the receive window: new, or a repeat of something received. */
  predicate Below(cfg: Config, nxt: int, w: Wire) {
    Diff(Ring32, w.sn, U32(nxt + cfg.rcvWnd)) < 0
  }

  lemma SegAcks(cfg: Config, k: Kcb, w: Wire)
    ensures var k' := InputSeg(Ring32, cfg, k, w);
      k'.acks == if w.cmd == CMD_PUSH && Below(cfg, k.rcv.nxt, w) then k.acks + [Ack(w.sn, w.ts)] else k.acks
  {
    hide ParseUna, ParseAck, ParseData, UpdateAck, Diff;
  }

  /** In the receive window, or a repeat of something received not too long ago. */
  predicate Recent(cfg: Config, nxt: int, sn: int) {
    -0x4000_0000 <= Diff(Ring32, sn, nxt) < cfg.rcvWnd
  }

  /** Not far beyond the end of the window. */
  predicate Beyond(cfg: Config, nxt: int, sn: int) {
    cfg.rcvWnd <= Diff(Ring32, sn, nxt) < 0x4000_0000
  }

  lemma RecentIsBelow(cfg: Config, nxt: int, w: Wire)
    requires ConfigOk(cfg)
    ensures Recent(cfg, nxt, w.sn) ==> Below(cfg, nxt, w)
    ensures Beyond(cfg, nxt, w.sn) ==> !Below(cfg, nxt, w)
  {
    hide Diff;
    if Recent(cfg, nxt, w.sn) || Beyond(cfg, nxt, w.sn) {
      DiffMove(Ring32, w.sn, nxt, cfg.rcvWnd);
    }
  }

  /** A segment read is acknowledged exactly when it carries data that is new in the window or a repeat. */
  lemma ReadIsAcked(cfg: Config, k: Kcb, w: Wire)
    requires ConfigOk(cfg) && w.cmd == CMD_PUSH
    ensures Recent(cfg, k.rcv.nxt, w.sn) ==> InputSeg(Ring32, cfg, k, w).acks == k.acks + [Ack(w.sn, w.ts)]
    ensures Beyond(cfg, k.rcv.nxt, w.sn) ==> InputSeg(Ring32, cfg, k, w).acks == k.acks
  {
    hide InputSeg, Recent, Beyond, Below;
    SegAcks(cfg, k, w);
    RecentIsBelow(cfg, k.rcv.nxt, w);
  }

  /** The acknowledgement repeats the number and time stamp of a data segment. */
  predicate Echoes(ws: seq<Wire>, a: Ack) {
    exists j :: 0 <= j < |ws| && ws[j].cmd == CMD_PUSH && ws[j].sn == a.sn && ws[j].ts == a.ts
  }

  /** What is owed is a list that grows: each new entry echoes the number and time of a data segment read. */
  predicate Owing(before: seq<Ack>, ws: seq<Wire>, after: seq<Ack>) {
    && before <= after
    && forall i :: |before| <= i < |after| ==> Echoes(ws, after[i])
  }

  lemma OwingMore(before: seq<Ack>, w: Wire, mid: seq<Ack>, rest: seq<Wire>, after: seq<Ack>)
    requires mid == before || (w.cmd == CMD_PUSH && mid == before + [Ack(w.sn, w.ts)])
    requires Owing(mid, rest, after)
    ensures Owing(before, [w] + rest, after)
  {
    var ws := [w] + rest;
    forall i | |before| <= i < |after|
      ensures Echoes(ws, after[i])
    {
      if i < |mid| {
        assert after[i] == mid[i] && ws[0] == w;
      } else {
        assert Echoes(rest, after[i]);
        var j :| 0 <= j < |rest| && rest[j].cmd == CMD_PUSH && rest[j].sn == after[i].sn && rest[j].ts == after[i].ts;
        assert ws[j + 1] == rest[j];
      }
    }
  }

  lemma {:induction false} ReadingOwes(cfg: Config, k: Kcb, m: MaxAck, ws: seq<Wire>)
    ensures Owing(k.acks, ws, InputSegs(Ring32, cfg, k, m, ws).0.acks)
    decreases |ws|
  {
    hide NextMax, InputSeg, Owing, Below;
    if ws == [] {
      OwingNothing(k.acks);
    } else {
      var k1 := InputSeg(Ring32, cfg, k, ws[0]);
      SegAcks(cfg, k, ws[0]);
      ReadingOwes(cfg, k1, NextMax(Ring32, m, ws[0]), ws[1..]);
      assert ws == [ws[0]] + ws[1..];
      OwingMore(k.acks, ws[0], k1.acks, ws[1..], InputSegs(Ring32, cfg, k, m, ws).0.acks);
    }
  }

  lemma OwingNothing(acks: seq<Ack>)
    ensures Owing(acks, [], acks)
  {
  }

  lemma {:induction false} ReadingSplits(cfg: Config, k: Kcb, m: MaxAck, ws: seq<Wire>, j: nat) returns (m': MaxAck)
    requires j <= |ws|
    ensures InputSegs(Ring32, cfg, k, m, ws) == InputSegs(Ring32, cfg, InputSegs(Ring32, cfg, k, m, ws[..j]).0, m', ws[j..])
    decreases |ws|
  {
    hide NextMax, InputSeg;
    if j == 0 {
      assert ws[..0] == [] && ws[0..] == ws;
      m' := m;
    } else {
      assert ws[1..][..j - 1] == ws[..j][1..] && ws[1..][j - 1..] == ws[j..] && ws[..j][0] == ws[0];
      m' := ReadingSplits(cfg, InputSeg(Ring32, cfg, k, ws[0]), NextMax(Ring32, m, ws[0]), ws[1..], j - 1);
    }
  }

  lemma InputOwes(cfg: Config, k: Kcb, b: seq<byte>)
    requires cfg.mss > 0
    ensures Owing(k.acks, ReadFrom(cfg.conv, b).0, InputBytes(cfg, k, b).k.acks)
    ensures InputBytes(cfg, k, b).k.acks == AfterReading(cfg, k, ReadFrom(cfg.conv, b).0).acks
  {
    hide EndInput, InputSegs, InputBytes, ReadFrom, Owing;
    InputReads(cfg, k, b);
    var ws := ReadFrom(cfg.conv, b).0;
    var (k', m) := InputSegs(Ring32, cfg, k, NoAck, ws);
    ReadingOwes(cfg, k, NoAck, ws);
    EndLeaves(cfg, k', m, k.snd.una);
  }

  /** Calls that send no acknowledgements. */
  predicate Keeps(call: Call) {
    !call.CallFlush? && !call.CallFlushAck?
  }

  lemma {:induction false} OwedStays(cfg: Config, k: Kcb, calls: seq<Call>)
    requires cfg.mss > 0 && forall i :: 0 <= i < |calls| ==> Keeps(calls[i])
    ensures k.acks <= AfterFrom(cfg, k, calls).acks
    decreases |calls|
  {
    hide Apply;
    if calls != [] {
      var n := |calls| - 1;
      OwedStays(cfg, k, calls[..n]);
      KeepsOwing(cfg, AfterFrom(cfg, k, calls[..n]), calls[n]);
    }
  }

  lemma KeepsOwing(cfg: Config, k: Kcb, call: Call)
    requires cfg.mss > 0 && Keeps(call)
    ensures Owing(k.acks, if call.CallInput? then ReadFrom(cfg.conv, call.bytes).0 else [], Apply(cfg, k, call).acks)
  {
    hide InputBytes, ReadFrom, Fragments.Enqueue, RecvFront;
    if call.CallInput? {
      InputOwes(cfg, k, call.bytes);
    }
  }

  /**
   Every data segment that is read and lies in the window or before it, a
   repeat too, is acknowledged by the next flush, with its number and its time
   stamp, whatever calls are made in between.
   */
  lemma EveryPushIsAcked(cfg: Config, k: Kcb, b: seq<byte>, j: nat, calls: seq<Call>, current: u32)
    requires ConfigOk(cfg) && forall i :: 0 <= i < |calls| ==> Keeps(calls[i])
    requires j < |ReadFrom(cfg.conv, b).0| && ReadFrom(cfg.conv, b).0[j].cmd == CMD_PUSH
    requires var ws := ReadFrom(cfg.conv, b).0;
      Recent(cfg, AfterReading(cfg, k, ws[..j]).rcv.nxt, ws[j].sn)
    ensures var w := ReadFrom(cfg.conv, b).0[j];
      var later := AfterFrom(cfg, InputBytes(cfg, k, b).k, calls);
      exists a ::
        && a in Flush(Ring32, cfg, later, current).wires
        && a.cmd == CMD_ACK && a.sn == w.sn && a.ts == w.ts && a.una == later.rcv.nxt
  {
    hide Recent, Apply, InputSegs, InputSeg, InputBytes, ReadFrom, Flush;
    var ws := ReadFrom(cfg.conv, b).0;
    var k1 := InputBytes(cfg, k, b).k;
    var kj := AfterReading(cfg, k, ws[..j]);
    InputOwes(cfg, k, b);
    ReadIsAcked(cfg, kj, ws[j]);
    var m := ReadingSplits(cfg, k, NoAck, ws, j);
    FirstRead(cfg, kj, m, ws[j..]);
    ReadingOwes(cfg, InputSeg(Ring32, cfg, kj, ws[j]), NextMax(Ring32, m, ws[j]), ws[j..][1..]);
    OwedStays(cfg, k1, calls);
    var later := AfterFrom(cfg, k1, calls);
    assert later.acks[|kj.acks|] == Ack(ws[j].sn, ws[j].ts);
    OwedIsSent(cfg, later, current, |kj.acks|);
  }

  lemma FirstRead(cfg: Config, k: Kcb, m: MaxAck, ws: seq<Wire>)
    requires ws != []
    ensures InputSegs(Ring32, cfg, k, m, ws)
      == InputSegs(Ring32, cfg, InputSeg(Ring32, cfg, k, ws[0]), NextMax(Ring32, m, ws[0]), ws[1..])
  {
  }

  lemma OwedIsSent(cfg: Config, k: Kcb, current: u32, i: nat)
    requires i < |k.acks|
    ensures exists a ::
      && a in Flush(Ring32, cfg, k, current).wires
      && a.cmd == CMD_ACK && a.sn == k.acks[i].sn && a.ts == k.acks[i].ts && a.una == k.rcv.nxt
  {
    hide NextProbe, PushWires, ProbeWires, Filled, SweepAll, AfterLoss, WndUnused;
    var w := Control(cfg, k, CMD_ACK, k.acks[i]);
    assert w == AckWires(cfg, k, k.acks)[i];
    assert w in Flush(Ring32, cfg, k, current).wires;
  }

  /** Some datagram of the run carries the data segment that the acknowledgement is for. */
  predicate Carried(conv: int, calls: seq<Call>, a: Ack) {
    exists c :: 0 <= c < |calls| && calls[c].CallInput? && Echoes(ReadFrom(conv, calls[c].bytes).0, a)
  }

  /** And nothing else is acknowledged: each acknowledgement owed after any calls echoes a data segment one of them has read. */
  lemma {:induction false} AcksAreEchoes(cfg: Config, calls: seq<Call>)
    requires cfg.mss > 0
    ensures var k := After(cfg, calls);
      forall i :: 0 <= i < |k.acks| ==> Carried(cfg.conv, calls, k.acks[i])
    decreases |calls|
  {
    hide Apply, ReadFrom, Owing;
    if calls != [] {
      var n := |calls| - 1;
      var k, k' := After(cfg, calls[..n]), After(cfg, calls);
      AcksAreEchoes(cfg, calls[..n]);
      if Keeps(calls[n]) {
        KeepsOwing(cfg, k, calls[n]);
        EchoesGrow(cfg.conv, calls, k.acks, k'.acks);
      } else {
        OthersClear(cfg, k, calls[n]);
      }
    }
  }

  lemma EchoesGrow(conv: int, calls: seq<Call>, before: seq<Ack>, after: seq<Ack>)
    requires calls != []
    requires forall i :: 0 <= i < |before| ==> Carried(conv, calls[..|calls| - 1], before[i])
    requires var call := calls[|calls| - 1];
      Owing(before, if call.CallInput? then ReadFrom(conv, call.bytes).0 else [], after)
    ensures forall i :: 0 <= i < |after| ==> Carried(conv, calls, after[i])
  {
    hide ReadFrom;
    var n := |calls| - 1;
    forall i | 0 <= i < |after|
      ensures Carried(conv, calls, after[i])
    {
      if i < |before| {
        assert after[i] == before[i];
        var c :| 0 <= c < n && calls[..n][c].CallInput? && Echoes(ReadFrom(conv, calls[..n][c].bytes).0, after[i]);
        assert calls[c] == calls[..n][c];
      } else {
        assert Echoes(if calls[n].CallInput? then ReadFrom(conv, calls[n].bytes).0 else [], after[i]);
      }
    }
  }

  lemma OthersClear(cfg: Config, k: Kcb, call: Call)
    requires cfg.mss > 0 && !Keeps(call)
    ensures Apply(cfg, k, call).acks == []
  {
    hide NextProbe, PushWires, ProbeWires, Filled, SweepAll, AfterLoss, WndUnused;
  }
}
