/**
 An acknowledged segment is gone for good: no later flush sends its number
 again.
 */
module Acknowledged {
  import opened SerialArith
  import opened Receiver
  import opened Sender
  import opened Codec
  import opened Engine
  import opened EngineInvariant
  import opened Endpoint
  import opened ByteRuns
  import opened Arrivals
  import opened Resending
  import opened Answers

  /** No segment in flight has the number. */
  ghost predicate Absent(buf: seq<SndSeg>, sn: int) {
    forall i :: 0 <= i < |buf| ==> buf[i].sn != sn
  }

  lemma FewerAbsent(before: seq<SndSeg>, after: seq<SndSeg>, sn: int)
    requires Absent(before, sn)
    requires forall seg :: seg in after ==> exists i :: 0 <= i < |before| && before[i].sn == seg.sn
    ensures Absent(after, sn)
  {
    forall i | 0 <= i < |after|
      ensures after[i].sn != sn
    {
      assert after[i] in after;
    }
  }

  /** A cumulative acknowledgement inside the window removes every number before it. */
  lemma UnaRemoves(s: Snd, wnd: int, una: int, sn: int)
    requires SndWndOk(wnd) && SndInv(Ring32, wnd, s)
    requires 0 <= Diff(Ring32, una, s.una) <= Diff(Ring32, s.nxt, s.una) && Diff(Ring32, una, sn) > 0
    ensures Absent(ParseUna(Ring32, s, una).buf, sn)
  {
    hide Diff, Norm;
    DropBelowIsSuffix(Ring32, s.buf, una);
    var p := CountBelow(Ring32, s.buf, una);
    forall i | p <= i < |s.buf|
      ensures s.buf[i].sn != sn
    {
      assert i > p ==> Diff(Ring32, s.buf[p].sn, s.una) < Diff(Ring32, s.buf[i].sn, s.una);
      DiffShift(Ring32, una, s.buf[p].sn, s.una);
      DiffShift(Ring32, una, s.buf[i].sn, s.una);
    }
  }

  /** A selective acknowledgement removes its number, wherever it is. */
  lemma AckRemoves(s: Snd, wnd: int, sn: int)
    requires SndWndOk(wnd) && SndInv(Ring32, wnd, s)
    ensures Absent(ParseAck(Ring32, s, sn).buf, sn)
  {
    hide Diff, Norm;
    forall i | 0 <= i < |s.buf| && s.buf[i].sn == sn
      ensures Sender.Outstanding(Ring32, s, sn)
    {
      DiffShift(Ring32, sn, s.nxt, s.una);
    }
    if Sender.Outstanding(Ring32, s, sn) {
      InFlight(s, wnd, sn);
      RemoveIsCut(Ring32, s.buf, sn);
      IndexOfComplete(Ring32, s.una, Diff(Ring32, s.nxt, s.una), s.buf, sn);
      var p := IndexOf(Ring32, s.buf, sn);
      if p < |s.buf| {
        OthersDiffer(s, wnd, p);
      }
    }
  }

  lemma OthersDiffer(s: Snd, wnd: int, p: nat)
    requires SndInv(Ring32, wnd, s) && p < |s.buf|
    ensures forall i :: 0 <= i < |s.buf| && i != p ==> s.buf[i].sn != s.buf[p].sn
  {
    hide Diff, Norm;
    assert forall i :: 0 <= i < |s.buf| && i != p ==> Diff(Ring32, s.buf[i].sn, s.una) != Diff(Ring32, s.buf[p].sn, s.una);
  }

  lemma InFlight(s: Snd, wnd: int, sn: int)
    requires SndWndOk(wnd) && SndInv(Ring32, wnd, s) && Sender.Outstanding(Ring32, s, sn)
    ensures 0 <= Diff(Ring32, sn, s.una) < Diff(Ring32, s.nxt, s.una)
  {
    hide Diff, Norm, SegsOk;
    var _ := DiffUnfold(Ring32, sn, s.una);
    DiffShift(Ring32, sn, s.nxt, s.una);
  }

  lemma SegKeepsAbsent(s: Snd, w: Wire, sn: int)
    requires Absent(s.buf, sn)
    ensures Absent(SndAfter(Ring32, s, w).buf, sn)
  {
    AckOnlyRemoves(s, w);
    hide SndAfter;
    FewerAbsent(s.buf, SndAfter(Ring32, s, w).buf, sn);
  }

  lemma {:induction false} ReadingKeepsAbsent(cfg: Config, k: Kcb, m: MaxAck, ws: seq<Wire>, sn: int)
    requires Absent(k.snd.buf, sn)
    ensures Absent(InputSegs(Ring32, cfg, k, m, ws).0.snd.buf, sn)
    decreases |ws|
  {
    hide InputSeg, NextMax, SndAfter, Absent;
    if ws != [] {
      InputSegSnd(Ring32, cfg, k, ws[0]);
      SegKeepsAbsent(k.snd, ws[0], sn);
      ReadingKeepsAbsent(cfg, InputSeg(Ring32, cfg, k, ws[0]), NextMax(Ring32, m, ws[0]), ws[1..], sn);
    }
  }

  /** The segment acknowledges the number: selectively, or with all before a number it could have been told. */
  predicate Acknowledges(w: Wire, s: Snd, sn: int) {
    || (w.cmd == CMD_ACK && w.sn == sn)
    || (0 <= Diff(Ring32, w.una, s.una) <= Diff(Ring32, s.nxt, s.una) && Diff(Ring32, w.una, sn) > 0)
  }

  lemma SegRemoves(cfg: Config, k: Kcb, w: Wire, sn: int)
    requires ConfigOk(cfg) && KcbInv(Ring32, cfg, k) && Acknowledges(w, k.snd, sn)
    ensures Absent(InputSeg(Ring32, cfg, k, w).snd.buf, sn)
  {
    hide SndInv, RcvInv, Sized, ParseUna, ParseAck, Absent, Diff;
    InputSegSnd(Ring32, cfg, k, w);
    ParseUnaKeepsInv(Ring32, EngineInvariant.Window(cfg), k.snd, w.una);
    var s1 := ParseUna(Ring32, k.snd, w.una);
    if w.cmd == CMD_ACK && w.sn == sn {
      AckRemoves(s1, EngineInvariant.Window(cfg), sn);
    } else {
      UnaRemoves(k.snd, EngineInvariant.Window(cfg), w.una, sn);
      if w.cmd == CMD_ACK {
        RemoveKeepsAbsent(s1, w.sn, sn);
      }
    }
  }

  lemma RemoveKeepsAbsent(s: Snd, other: int, sn: int)
    requires Absent(s.buf, sn)
    ensures Absent(ParseAck(Ring32, s, other).buf, sn)
  {
    hide Diff;
    RemoveIsCut(Ring32, s.buf, other);
  }

  lemma EndKeepsAbsent(cfg: Config, k: Kcb, m: MaxAck, prevUna: int, sn: int)
    requires cfg.mss > 0 && Absent(k.snd.buf, sn)
    ensures Absent(EndInput(Ring32, cfg, k, m, prevUna).snd.buf, sn)
  {
    hide Diff, Grow, Skip;
    if m.MaxAck? {
      SkipSame(Ring32, k.snd.buf, m.sn);
    }
  }

  lemma InputKeepsAbsent(cfg: Config, k: Kcb, b: seq<byte>, sn: int)
    requires cfg.mss > 0 && Absent(k.snd.buf, sn)
    ensures Absent(InputBytes(cfg, k, b).k.snd.buf, sn)
  {
    hide InputBytes, InputSegs, EndInput, ReadFrom, Absent;
    var ws := ReadFrom(cfg.conv, b).0;
    InputReads(cfg, k, b);
    ReadingKeepsAbsent(cfg, k, NoAck, ws, sn);
    var (k1, m) := InputSegs(Ring32, cfg, k, NoAck, ws);
    EndKeepsAbsent(cfg, k1, m, k.snd.una, sn);
    EndIsEnd(cfg, k, ws);
  }

  lemma {:induction false} ReadingKeepsInv(cfg: Config, k: Kcb, m: MaxAck, ws: seq<Wire>)
    requires ConfigOk(cfg) && KcbInv(Ring32, cfg, k) && forall j :: 0 <= j < |ws| ==> InRing(Ring32, ws[j])
    ensures KcbInv(Ring32, cfg, InputSegs(Ring32, cfg, k, m, ws).0)
  {
    hide KcbInv, InRing, InputSegs;
    InputSegsKeepsInv(Ring32, cfg, k, m, ws);
  }

  /** An input that acknowledges a number leaves no segment with it. */
  lemma AckedIsGone(cfg: Config, k: Kcb, b: seq<byte>, j: nat, sn: int)
    requires ConfigOk(cfg) && KcbInv(Ring32, cfg, k) && j < |ReadFrom(cfg.conv, b).0|
    requires var ws := ReadFrom(cfg.conv, b).0; Acknowledges(ws[j], AfterReading(cfg, k, ws[..j]).snd, sn)
    ensures Absent(InputBytes(cfg, k, b).k.snd.buf, sn)
  {
    hide InputBytes, InputSegs, EndInput, ReadFrom, Absent, KcbInv, Acknowledges, InputSeg, InRing;
    var ws := ReadFrom(cfg.conv, b).0;
    var kj := AfterReading(cfg, k, ws[..j]);
    ReadAllInRing(cfg.conv, b);
    assert forall i :: 0 <= i < j ==> ws[..j][i] == ws[i];
    ReadingKeepsInv(cfg, k, NoAck, ws[..j]);
    SegRemoves(cfg, kj, ws[j], sn);
    var m := ReadingSplits(cfg, k, NoAck, ws, j);
    FirstRead(cfg, kj, m, ws[j..]);
    ReadingKeepsAbsent(cfg, InputSeg(Ring32, cfg, kj, ws[j]), NextMax(Ring32, m, ws[j]), ws[j..][1..], sn);
    var (k1, m1) := InputSegs(Ring32, cfg, k, NoAck, ws);
    EndKeepsAbsent(cfg, k1, m1, k.snd.una, sn);
    EndIsEnd(cfg, k, ws);
    InputReads(cfg, k, b);
  }

  // ---------------------------------------------------------------------
  // Afterwards
  // ---------------------------------------------------------------------

  /** The number lies behind snd_nxt, and not by so much that it could come round again. */
  predicate Behind(k: Kcb, sn: int) {
    Norm(Ring32, sn) == sn && 0 < Diff(Ring32, k.snd.nxt, sn) < 0x4000_0000
  }

  lemma NewNumbers(nxt: int, sn: int, i: nat)
    requires Norm(Ring32, sn) == sn && 0 < Diff(Ring32, nxt, sn) < 0x4000_0000 && i < 0x4000_0000
    ensures Norm(Ring32, nxt + i) != sn
  {
    hide Diff, Norm;
    var k := DiffUnfold(Ring32, nxt, sn);
    DiffExact(Ring32, nxt + i, sn, k);
    DiffNorm(Ring32, nxt + i, sn);
    DiffSelf(Ring32, sn);
  }

  lemma FilledAbsent(cfg: Config, k: Kcb, current: u32, sn: int)
    requires ConfigOk(cfg) && KcbInv(Ring32, cfg, k) && Absent(k.snd.buf, sn) && Behind(k, sn)
    ensures Absent(Filled(Ring32, cfg, k, current).buf, sn)
  {
    hide Diff, Norm, KcbInv, SendWindow, Fill, Behind;
    var s, m := k.snd, MoveCount(Ring32, k.snd, SendWindow(cfg, k));
    NxtIsNormal(cfg, k);
    FillIsFifo(Ring32, s, SendWindow(cfg, k), current, k.rtt.rto);
    FilledCount(cfg, k, current);
    var buf := Filled(Ring32, cfg, k, current).buf;
    forall i | 0 <= i < |buf|
      ensures buf[i].sn != sn
    {
      if i >= |s.buf| {
        NumberAllAt(Ring32, s.nxt, s.que[..m], current, k.rtt.rto, i - |s.buf|);
        BehindMeans(k, sn);
        NewNumbers(s.nxt, sn, i - |s.buf|);
      }
    }
  }

  lemma BehindMeans(k: Kcb, sn: int)
    requires Behind(k, sn)
    ensures Norm(Ring32, sn) == sn && 0 < Diff(Ring32, k.snd.nxt, sn) < 0x4000_0000
  {
  }

  lemma {:induction false} BufFits(una: int, limit: int, buf: seq<SndSeg>)
    requires SegsOk(Ring32, una, limit, buf) && limit >= 0
    ensures |buf| <= limit
    ensures forall i :: 0 <= i < |buf| ==> i <= Diff(Ring32, buf[i].sn, una)
    decreases |buf|
  {
    hide Diff, Norm;
    if buf != [] {
      var n := |buf| - 1;
      var rest := buf[..n];
      if n > 0 {
        assert Diff(Ring32, buf[n - 1].sn, una) < Diff(Ring32, buf[n].sn, una);
      }
      assert forall i :: 0 <= i < n ==> rest[i] == buf[i];
      BufFits(una, limit, rest);
    }
  }

  lemma FilledCount(cfg: Config, k: Kcb, current: u32)
    requires ConfigOk(cfg) && KcbInv(Ring32, cfg, k)
    ensures |Filled(Ring32, cfg, k, current).buf| <= MAX_WND
  {
    hide Diff, Norm, RcvInv, Sized, Filled, SegsOk, Shrink;
    FilledOk(Ring32, cfg, k, current);
    var s := Filled(Ring32, cfg, k, current);
    BufFits(s.una, Diff(Ring32, s.nxt, s.una), s.buf);
  }

  lemma CallKeepsAbsent(cfg: Config, k: Kcb, call: Call, sn: int)
    requires ConfigOk(cfg) && KcbInv(Ring32, cfg, k) && Absent(k.snd.buf, sn) && Behind(k, sn)
    ensures Absent(Apply(cfg, k, call).snd.buf, sn)
    ensures call.CallFlush? ==> !Sends(Flush(Ring32, cfg, k, call.current).wires, sn)
  {
    hide KcbInv, InputBytes, Filled, Behind, Fragments.Enqueue, RecvFront, PushWires, Sends, NextProbe, AfterLoss, AckWires, ProbeWires;
    match call
    case CallInput(b) => InputKeepsAbsent(cfg, k, b, sn);
    case CallFlush(current) =>
      var s := Filled(Ring32, cfg, k, current);
      FilledAbsent(cfg, k, current, sn);
      FlushedPushes(cfg, k, current, sn);
      PushesAre(cfg, k, current, s.buf, sn);
      SweepAllSame(cfg, current, k.rtt.rto, s.buf);
    case _ =>
  }

  /**
   Once no segment has a number, no call brings it back and no flush sends it,
   until the numbers have gone on by a quarter of their range.
   */
  lemma {:induction false} NeverAgain(cfg: Config, k: Kcb, calls: seq<Call>, sn: int)
    requires ConfigOk(cfg) && KcbInv(Ring32, cfg, k) && Absent(k.snd.buf, sn)
    requires forall m :: 0 <= m <= |calls| ==> Behind(AfterFrom(cfg, k, calls[..m]), sn)
    ensures Absent(AfterFrom(cfg, k, calls).snd.buf, sn)
    ensures forall m :: 0 <= m < |calls| && calls[m].CallFlush? ==>
      !Sends(Flush(Ring32, cfg, AfterFrom(cfg, k, calls[..m]), calls[m].current).wires, sn)
    decreases |calls|
  {
    hide KcbInv, Apply, Absent, Behind, Sends, Flush;
    if calls != [] {
      var n := |calls| - 1;
      var before := calls[..n];
      forall m | 0 <= m <= n
        ensures before[..m] == calls[..m]
      {
      }
      assert forall m :: 0 <= m < n ==> before[m] == calls[m];
      assert forall m :: 0 <= m <= n ==> Behind(AfterFrom(cfg, k, before[..m]), sn) by {
        assert forall m :: 0 <= m <= n ==> Behind(AfterFrom(cfg, k, calls[..m]), sn);
      }
      NeverAgain(cfg, k, before, sn);
      CallsKeepInv(cfg, k, before);
      CallKeepsAbsent(cfg, AfterFrom(cfg, k, before), calls[n], sn);
    }
  }
}
