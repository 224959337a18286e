/**
 The receiving end of one direction of a connection, against the log of every
 fragment its sender has numbered so far. Numbers are unbounded here.
 */
module Reassembly {
  import opened SerialArith
  import opened Receiver
  import opened Sender
  import opened Fragments

  /** A receiver and its history: how many fragments the user has taken, and what that gave. */
  datatype Rx = Rx(rcv: Rcv, taken: nat, read: seq<byte>, got: seq<seq<byte>>)

  predicate Matches(seg: RcvSeg, f: Frag) {
    seg.frg == f.frg && seg.data == f.data
  }

  /** The segment carries the fragment the log has under its number. */
  predicate Genuine(log: seq<Frag>, seg: RcvSeg) {
    0 <= seg.sn < |log| && Matches(seg, log[seg.sn])
  }

  predicate InBuf(buf: seq<RcvSeg>, sn: int) {
    exists i :: 0 <= i < |buf| && buf[i].sn == sn
  }

  /** The receiver has the fragment: already in order, or waiting in rcv_buf. */
  predicate Held(k: Rcv, sn: int) {
    sn < k.nxt || InBuf(k.buf, sn)
  }

  ghost predicate AllGenuine(log: seq<Frag>, segs: seq<RcvSeg>) {
    forall i :: 0 <= i < |segs| ==> Genuine(log, segs[i])
  }

  /** No fragment is cut off before the end of its message. */
  predicate AtBoundary(log: seq<Frag>, n: nat) {
    n <= |log| && (n == 0 || log[n - 1].frg == 0)
  }

  /**
   rcv_queue is the log from taken to rcv_nxt, rcv_buf holds fragments of the
   log, and the user has read exactly the first taken fragments.
   */
  ghost predicate RxInv(wnd: int, log: seq<Frag>, rx: Rx) {
    && RcvInv(Wide, wnd, rx.rcv)
    && rx.taken + |rx.rcv.que| == rx.rcv.nxt <= |log|
    && AllGenuine(log, rx.rcv.que)
    && AllGenuine(log, rx.rcv.buf)
    && rx.read == Join(log[..rx.taken])
    && AtBoundary(log, rx.taken)
    && rx.got == Messages(log[..rx.taken])
  }

  /** In order: entry i of rcv_queue is fragment taken + i. */
  lemma QueueIsLog(wnd: int, log: seq<Frag>, rx: Rx, i: nat)
    requires RxInv(wnd, log, rx) && i < |rx.rcv.que|
    ensures rx.rcv.que[i].sn == rx.taken + i < |log|
    ensures Matches(rx.rcv.que[i], log[rx.taken + i])
  {
  }

  // ---------------------------------------------------------------------
  // Draining and inserting
  // ---------------------------------------------------------------------

  lemma DrainKeepsHeld(wnd: int, k: Rcv, sn: int)
    ensures Held(k, sn) ==> Held(Drain(Wide, wnd, k), sn)
    ensures k.nxt <= Drain(Wide, wnd, k).nxt
  {
    DrainMovesPrefix(Wide, wnd, k);
    var m := DrainCount(Wide, wnd, k);
    if InBuf(k.buf, sn) {
      var i :| 0 <= i < |k.buf| && k.buf[i].sn == sn;
      if i >= m {
        assert k.buf[m..][i - m].sn == sn;
      }
    }
  }

  lemma DrainKeepsRx(wnd: int, log: seq<Frag>, rx: Rx)
    requires WndOk(wnd) && Draining(Wide, wnd, rx.rcv)
    requires rx.taken + |rx.rcv.que| == rx.rcv.nxt <= |log|
    requires AllGenuine(log, rx.rcv.que) && AllGenuine(log, rx.rcv.buf)
    requires rx.read == Join(log[..rx.taken]) && AtBoundary(log, rx.taken) && rx.got == Messages(log[..rx.taken])
    ensures RxInv(wnd, log, rx.(rcv := Drain(Wide, wnd, rx.rcv)))
  {
    var k := rx.rcv;
    DrainOk(Wide, wnd, k);
    DrainMovesPrefix(Wide, wnd, k);
    var m := DrainCount(Wide, wnd, k);
    if m > 0 {
      assert Genuine(log, k.buf[m - 1]);
    }
  }

  lemma InsertGenuine(log: seq<Frag>, buf: seq<RcvSeg>, seg: RcvSeg)
    requires AllGenuine(log, buf) && Genuine(log, seg)
    ensures AllGenuine(log, Insert(Wide, buf, seg))
  {
  }

  lemma InsertHeld(wnd: int, nxt: int, buf: seq<RcvSeg>, seg: RcvSeg, sn: int)
    requires WndOk(wnd) && BufOk(Wide, wnd, nxt, buf) && nxt <= seg.sn < nxt + wnd
    ensures InBuf(buf, sn) ==> InBuf(Insert(Wide, buf, seg), sn)
    ensures InBuf(Insert(Wide, buf, seg), seg.sn)
  {
    FindSlotSpec(Wide, wnd, nxt, buf, seg.sn);
    var out := Insert(Wide, buf, seg);
    match FindSlot(Wide, buf, seg.sn)
    case Repeat =>
    case At(p) =>
      assert out[p] == seg;
      if InBuf(buf, sn) {
        var i :| 0 <= i < |buf| && buf[i].sn == sn;
        assert out[if i < p then i else i + 1] == buf[i];
      }
  }

  /**
   A genuine segment keeps the receiver correct, is held from then on unless
   it lies beyond the window, and nothing held is lost.
   */
  lemma PushKeepsRx(wnd: int, log: seq<Frag>, rx: Rx, seg: RcvSeg)
    requires WndOk(wnd) && RxInv(wnd, log, rx) && Genuine(log, seg)
    ensures RxInv(wnd, log, rx.(rcv := ParseData(Wide, wnd, rx.rcv, seg)))
    ensures seg.sn < rx.rcv.nxt + wnd ==> Held(ParseData(Wide, wnd, rx.rcv, seg), seg.sn)
    ensures rx.rcv.nxt <= ParseData(Wide, wnd, rx.rcv, seg).nxt
  {
    var k := rx.rcv;
    if InWindow(Wide, wnd, k.nxt, seg.sn) {
      var k' := k.(buf := Insert(Wide, k.buf, seg));
      InsertOk(Wide, wnd, k.nxt, k.buf, seg);
      InsertGenuine(log, k.buf, seg);
      InsertHeld(wnd, k.nxt, k.buf, seg, seg.sn);
      DrainKeepsRx(wnd, log, rx.(rcv := k'));
      DrainKeepsHeld(wnd, k', seg.sn);
    }
  }

  lemma PushKeepsHeld(wnd: int, k: Rcv, seg: RcvSeg, sn: int)
    requires WndOk(wnd) && RcvInv(Wide, wnd, k) && Held(k, sn)
    ensures Held(ParseData(Wide, wnd, k, seg), sn)
  {
    if InWindow(Wide, wnd, k.nxt, seg.sn) {
      InsertHeld(wnd, k.nxt, k.buf, seg, sn);
      DrainKeepsHeld(wnd, k.(buf := Insert(Wide, k.buf, seg)), sn);
    }
  }

  // ---------------------------------------------------------------------
  // Taking a message
  // ---------------------------------------------------------------------

  /** The first n segments of a queue that matches the log from taken on. */
  lemma {:induction false} BytesAreLog(que: seq<RcvSeg>, log: seq<Frag>, taken: nat)
    requires taken + |que| <= |log|
    requires forall i :: 0 <= i < |que| ==> Matches(que[i], log[taken + i])
    ensures Bytes(que) == Join(log[taken..taken + |que|])
  {
    if que != [] {
      var part := log[taken..taken + |que|];
      assert part[0] == log[taken] && part[1..] == log[taken + 1..taken + 1 + |que[1..]|];
      forall i | 0 <= i < |que[1..]|
        ensures Matches(que[1..][i], log[taken + 1 + i])
      {
        assert Matches(que[i + 1], log[taken + (i + 1)]);
      }
      BytesAreLog(que[1..], log, taken + 1);
    }
  }

  lemma {:induction false} FrontStops(que: seq<RcvSeg>)
    ensures var n := FrontCount(que);
      && (forall i :: 0 <= i < n - 1 ==> que[i].frg != 0)
      && (n < |que| ==> n > 0 && que[n - 1].frg == 0)
  {
    if que != [] && que[0].frg != 0 {
      FrontStops(que[1..]);
      var m := FrontCount(que[1..]);
      forall i | 0 <= i < m
        ensures que[i].frg != 0
      {
        if i > 0 {
          assert que[i] == que[1..][i - 1];
        }
      }
    }
  }

  /** Inside a well-cut run the next message ends frg fragments ahead. */
  lemma {:induction false} StepsDown(mss: int, fs: seq<Frag>, i: nat, j: nat)
    requires WellCut(mss, fs) && i < |fs| && i + j < |fs| && j <= fs[i].frg
    ensures fs[i + j].frg == fs[i].frg - j
  {
    if j > 0 {
      StepsDown(mss, fs, i, j - 1);
    }
  }

  /**
   ikcp_peeksize succeeds exactly when the front message is complete, and then
   FrontCount is that message.
   */
  lemma FrontIsMessage(mss: int, wnd: int, log: seq<Frag>, tail: seq<Frag>, rx: Rx)
    requires WellCut(mss, log + tail) && RxInv(wnd, log, rx) && rx.rcv.que != []
    ensures var n := FrontCount(rx.rcv.que);
      && (PeekSize(rx.rcv.que) >= 0 <==> rx.rcv.que[n - 1].frg == 0)
      && (PeekSize(rx.rcv.que) >= 0 ==> n == log[rx.taken].frg + 1)
  {
    var que := rx.rcv.que;
    var n := FrontCount(que);
    var fs := log + tail;
    FrontStops(que);
    var t := rx.taken;
    QueueIsLog(wnd, log, rx, 0);
    var f := fs[t].frg;
    assert f == que[0].frg && 0 <= f;
    if f < |que| {
      StepsDown(mss, fs, t, f);
      QueueIsLog(wnd, log, rx, f);
      assert que[f].frg == 0;
      assert n - 1 <= f;
    }
    StepsDown(mss, fs, t, n - 1);
    QueueIsLog(wnd, log, rx, n - 1);
  }

  /**
   No receive deadlock: with a window of at least 128, a full queue always has
   a complete message in front.
   */
  lemma FullQueueIsReadable(mss: int, wnd: int, log: seq<Frag>, tail: seq<Frag>, rx: Rx)
    requires WndOk(wnd) && WellCut(mss, log + tail) && RxInv(wnd, log, rx)
    requires |rx.rcv.que| >= wnd
    ensures PeekSize(rx.rcv.que) >= 0
  {
    QueueIsLog(wnd, log, rx, 0);
    assert (log + tail)[rx.taken].frg < FRAG_LIMIT - 1;
  }

  /** The state after a successful ikcp_recv that returned data. */
  function Take(rx: Rx, k: Rcv, n: nat, data: seq<byte>): Rx {
    Rx(k, rx.taken + n, rx.read + data, rx.got + [data])
  }

  lemma {:induction false} MiddleIsOneMessage(part: seq<byte>, fs: seq<Frag>)
    requires fs != [] && fs[|fs| - 1].frg == 0
    requires forall i :: 0 <= i < |fs| - 1 ==> fs[i].frg != 0
    ensures MessagesFrom(part, fs) == [part + Join(fs)]
    decreases |fs|
  {
    if |fs| == 1 {
      assert fs[1..] == [];
      assert fs[0].data + [] == fs[0].data;
    } else {
      assert fs[1..][|fs| - 2] == fs[|fs| - 1];
      MiddleIsOneMessage(part + fs[0].data, fs[1..]);
      assert part + fs[0].data + Join(fs[1..]) == part + Join(fs);
    }
  }

  /** The front message, as a piece of the log. */
  lemma FrontOfLog(mss: int, wnd: int, log: seq<Frag>, tail: seq<Frag>, rx: Rx)
    requires WellCut(mss, log + tail) && RxInv(wnd, log, rx) && rx.rcv.que != [] && PeekSize(rx.rcv.que) >= 0
    ensures var n := FrontCount(rx.rcv.que);
      var part := log[rx.taken..rx.taken + n];
      && Bytes(rx.rcv.que[..n]) == Join(part)
      && part[n - 1].frg == 0
      && (forall i :: 0 <= i < n - 1 ==> part[i].frg != 0)
  {
    hide WellCut, RcvInv, AllGenuine, AtBoundary, Join, Bytes, Messages;
    var t, n := rx.taken, FrontCount(rx.rcv.que);
    var front := rx.rcv.que[..n];
    FrontIsMessage(mss, wnd, log, tail, rx);
    FrontStops(rx.rcv.que);
    forall i | 0 <= i < n
      ensures Matches(front[i], log[t + i])
    {
      QueueIsLog(wnd, log, rx, i);
    }
    BytesAreLog(front, log, t);
    var part := log[t..t + n];
    forall i | 0 <= i < n
      ensures part[i].frg == rx.rcv.que[i].frg
    {
      assert Matches(front[i], log[t + i]);
    }
  }

  /** What ikcp_recv returns is one whole message, the next one. */
  lemma TakeOneMessage(mss: int, wnd: int, log: seq<Frag>, tail: seq<Frag>, rx: Rx)
    requires WellCut(mss, log + tail) && RxInv(wnd, log, rx) && rx.rcv.que != [] && PeekSize(rx.rcv.que) >= 0
    ensures var n := FrontCount(rx.rcv.que);
      var data := Bytes(rx.rcv.que[..n]);
      && Join(log[..rx.taken + n]) == rx.read + data
      && Messages(log[..rx.taken + n]) == rx.got + [data]
      && AtBoundary(log, rx.taken + n)
  {
    hide WellCut, Bytes, PeekSize, RcvInv, AllGenuine, Join, FrontCount, MessagesFrom;
    var t, n := rx.taken, FrontCount(rx.rcv.que);
    var part := log[t..t + n];
    FrontOfLog(mss, wnd, log, tail, rx);
    assert log[..t + n] == log[..t] + part;
    JoinAppend(log[..t], part);
    MessagesAppend([], log[..t], part);
    MiddleIsOneMessage([], part);
    assert [] + Join(part) == Join(part);
  }

  /** ikcp_recv hands over exactly the next message and loses nothing held. */
  lemma RecvKeepsRx(mss: int, wnd: int, log: seq<Frag>, tail: seq<Frag>, rx: Rx, len: int)
    requires WndOk(wnd) && WellCut(mss, log + tail) && RxInv(wnd, log, rx)
    ensures var v := RecvFront(Wide, wnd, rx.rcv, len);
      RxInv(wnd, log, if v.ret >= 0 && len >= 0 then Take(rx, v.k, FrontCount(rx.rcv.que), v.data)
                      else rx.(rcv := v.k))
  {
    var v := RecvFront(Wide, wnd, rx.rcv, len);
    if v.ret >= 0 {
      if len >= 0 {
        var n := FrontCount(rx.rcv.que);
        TakeOneMessage(mss, wnd, log, tail, rx);
        var rest := rx.rcv.(que := rx.rcv.que[n..]);
        RestOfQueue(wnd, log, rx, n);
        DrainKeepsRx(wnd, log, Take(rx, rest, n, v.data));
      } else {
        DrainKeepsRx(wnd, log, rx);
      }
    }
  }

  lemma RestOfQueue(wnd: int, log: seq<Frag>, rx: Rx, n: nat)
    requires RxInv(wnd, log, rx) && n <= |rx.rcv.que|
    ensures Draining(Wide, wnd, rx.rcv.(que := rx.rcv.que[n..]))
    ensures AllGenuine(log, rx.rcv.que[n..])
  {
    assert forall i :: 0 <= i < |rx.rcv.que| - n ==> rx.rcv.que[n..][i] == rx.rcv.que[n + i];
  }

  lemma RecvKeepsHeld(wnd: int, k: Rcv, len: int, sn: int)
    requires Held(k, sn)
    ensures Held(RecvFront(Wide, wnd, k, len).k, sn)
    ensures k.nxt <= RecvFront(Wide, wnd, k, len).k.nxt
  {
    if k.que != [] {
      DrainKeepsHeld(wnd, k, sn);
      DrainKeepsHeld(wnd, k.(que := k.que[FrontCount(k.que)..]), sn);
    }
  }

  /** A longer log of the same sender changes nothing for the receiver. */
  lemma LongerLog(wnd: int, log: seq<Frag>, more: seq<Frag>, rx: Rx)
    requires RxInv(wnd, log, rx)
    ensures RxInv(wnd, log + more, rx)
  {
    assert (log + more)[..rx.taken] == log[..rx.taken];
  }
}
