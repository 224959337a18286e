/**
 The 32-bit engine does what the unbounded one does: each operation commutes
 with wrapping the numbers, as long as the numbers it compares are less than
 half the range apart.
 */
module Wraparound {
  import opened SerialArith
  import opened Receiver
  import opened Sender
  import opened Codec
  import opened Engine

  function Map<T, U>(f: T -> U, xs: seq<T>): (ys: seq<U>)
    ensures |ys| == |xs|
    ensures forall i :: 0 <= i < |xs| ==> ys[i] == f(xs[i])
  {
    seq(|xs|, i requires 0 <= i < |xs| => f(xs[i]))
  }

  function WrapSndSeg(s: SndSeg): SndSeg {
    s.(sn := U32(s.sn))
  }

  function WrapRcvSeg(s: RcvSeg): RcvSeg {
    s.(sn := U32(s.sn))
  }

  function WrapAck(a: Ack): Ack {
    a.(sn := U32(a.sn))
  }

  function WrapWire(w: Wire): Wire {
    w.(sn := U32(w.sn), una := U32(w.una))
  }

  function WrapBuf(buf: seq<SndSeg>): (out: seq<SndSeg>)
    ensures |out| == |buf|
  {
    Map(WrapSndSeg, buf)
  }

  function WrapSegs(segs: seq<RcvSeg>): (out: seq<RcvSeg>)
    ensures |out| == |segs|
  {
    Map(WrapRcvSeg, segs)
  }

  function WrapSnd(s: Snd): Snd {
    Snd(U32(s.una), U32(s.nxt), WrapBuf(s.buf), s.que)
  }

  function WrapRcv(k: Rcv): Rcv {
    Rcv(U32(k.nxt), WrapSegs(k.buf), WrapSegs(k.que))
  }

  function WrapKcb(k: Kcb): Kcb {
    k.(snd := WrapSnd(k.snd), rcv := WrapRcv(k.rcv), acks := Map(WrapAck, k.acks))
  }

  function WrapMax(m: MaxAck): MaxAck {
    if m.NoAck? then m else MaxAck(U32(m.sn))
  }

  lemma MapTail<T, U>(f: T -> U, xs: seq<T>, i: nat)
    requires i <= |xs|
    ensures Map(f, xs)[i..] == Map(f, xs[i..])
    ensures Map(f, xs)[..i] == Map(f, xs[..i])
  {
  }

  lemma MapConcat<T, U>(f: T -> U, xs: seq<T>, ys: seq<T>)
    ensures Map(f, xs + ys) == Map(f, xs) + Map(f, ys)
  {
  }

  lemma MapOne<T, U>(f: T -> U, x: T)
    ensures Map(f, [x]) == [f(x)]
  {
  }

  // ---------------------------------------------------------------------
  // Sender
  // ---------------------------------------------------------------------

  predicate Close(a: int, b: int) {
    -0x8000_0000 <= a - b < 0x8000_0000
  }

  ghost predicate CloseToAll(x: int, buf: seq<SndSeg>) {
    forall i :: 0 <= i < |buf| ==> Close(x, buf[i].sn)
  }

  lemma {:induction false} DropBelowWraps(buf: seq<SndSeg>, una: int)
    requires CloseToAll(una, buf)
    ensures DropBelow(Ring32, WrapBuf(buf), U32(una)) == WrapBuf(DropBelow(Wide, buf, una))
  {
    hide U32, I32;
    if buf != [] {
      WrapDiff(una, buf[0].sn);
      MapTail(WrapSndSeg, buf, 1);
      DropBelowWraps(buf[1..], una);
    }
  }

  lemma ShrinkWraps(s: Snd)
    ensures Shrink(WrapSnd(s)) == WrapSnd(Shrink(s))
  {
    hide U32;
  }

  lemma ParseUnaWraps(s: Snd, una: int)
    requires CloseToAll(una, s.buf)
    ensures ParseUna(Ring32, WrapSnd(s), U32(una)) == WrapSnd(ParseUna(Wide, s, una))
  {
    hide U32, DropBelow, Shrink;
    DropBelowWraps(s.buf, una);
    ShrinkWraps(s.(buf := DropBelow(Wide, s.buf, una)));
  }

  lemma {:induction false} RemoveWraps(buf: seq<SndSeg>, sn: int)
    requires CloseToAll(sn, buf)
    ensures Remove(Ring32, WrapBuf(buf), U32(sn)) == WrapBuf(Remove(Wide, buf, sn))
  {
    hide U32, I32;
    if buf != [] {
      WrapDiff(sn, buf[0].sn);
      if U32(sn) == U32(buf[0].sn) {
        WrapInjective(sn, buf[0].sn);
      }
      MapTail(WrapSndSeg, buf, 1);
      RemoveWraps(buf[1..], sn);
      MapConcat(WrapSndSeg, [buf[0]], Remove(Wide, buf[1..], sn));
    }
  }

  lemma OutstandingWraps(s: Snd, sn: int)
    requires Close(sn, s.una) && (s.una <= sn ==> Close(sn, s.nxt))
    ensures Outstanding(Ring32, WrapSnd(s), U32(sn)) == Outstanding(Wide, s, sn)
  {
    hide U32, I32;
    WrapDiff(sn, s.una);
    if s.una <= sn {
      WrapDiff(sn, s.nxt);
    }
  }

  lemma ParseAckWraps(s: Snd, sn: int)
    requires Close(sn, s.una) && Close(sn, s.nxt) && CloseToAll(sn, s.buf)
    ensures ParseAck(Ring32, WrapSnd(s), U32(sn)) == WrapSnd(ParseAck(Wide, s, sn))
  {
    hide U32, Remove, Shrink, Outstanding;
    OutstandingWraps(s, sn);
    RemoveWraps(s.buf, sn);
    ShrinkWraps(s);
    ShrinkWraps(s.(buf := Remove(Wide, s.buf, sn)));
  }

  lemma {:induction false} SkipWraps(buf: seq<SndSeg>, sn: int)
    requires CloseToAll(sn, buf)
    ensures Skip(Ring32, WrapBuf(buf), U32(sn)) == WrapBuf(Skip(Wide, buf, sn))
  {
    hide I32;
    if buf != [] {
      var seg := buf[0];
      WrapDiff(sn, seg.sn);
      if U32(sn) == U32(seg.sn) {
        WrapInjective(sn, seg.sn);
      }
      MapTail(WrapSndSeg, buf, 1);
      SkipWraps(buf[1..], sn);
      var head := if sn != seg.sn then seg.(fastack := U32(seg.fastack + 1)) else seg;
      MapConcat(WrapSndSeg, [head], Skip(Wide, buf[1..], sn));
      MapOne(WrapSndSeg, head);
    }
  }

  lemma ParseFastackWraps(s: Snd, sn: int)
    requires Close(sn, s.una) && Close(sn, s.nxt) && CloseToAll(sn, s.buf)
    ensures ParseFastack(Ring32, WrapSnd(s), U32(sn)) == WrapSnd(ParseFastack(Wide, s, sn))
  {
    hide U32, Skip, Outstanding;
    OutstandingWraps(s, sn);
    SkipWraps(s.buf, sn);
  }

  lemma NormNextWraps(x: int)
    ensures Norm(Ring32, U32(x) + 1) == U32(x + 1)
  {
  }

  lemma CanMoveOutWraps(s: Snd, cwnd: int)
    requires Close(s.nxt, s.una + cwnd)
    ensures CanMoveOut(Ring32, WrapSnd(s), cwnd) == CanMoveOut(Wide, s, cwnd)
  {
    WrapDiff(s.nxt, s.una + cwnd);
    assert U32(U32(s.una) + cwnd) == U32(s.una + cwnd);
  }

  lemma MoveOutWraps(s: Snd, current: int, rto: int)
    requires s.que != []
    ensures MoveOut(Ring32, WrapSnd(s), current, rto) == WrapSnd(MoveOut(Wide, s, current, rto))
  {
    hide I32;
    NormNextWraps(s.nxt);
    hide U32;
    MapConcat(WrapSndSeg, s.buf, [Numbered(s, current, rto)]);
    MapOne(WrapSndSeg, Numbered(s, current, rto));
  }

  /** The window loop of ikcp_flush numbers the same fragments on both rings. */
  lemma {:induction false} FillWraps(s: Snd, cwnd: int, current: int, rto: int)
    requires 0 <= cwnd <= MAX_WND && 0 <= s.nxt - s.una <= MAX_WND
    ensures Fill(Ring32, WrapSnd(s), cwnd, current, rto) == WrapSnd(Fill(Wide, s, cwnd, current, rto))
    ensures MoveCount(Ring32, WrapSnd(s), cwnd) == MoveCount(Wide, s, cwnd)
    decreases |s.que|
  {
    hide U32, MoveOut, WrapBuf;
    CanMoveOutWraps(s, cwnd);
    if CanMoveOut(Wide, s, cwnd) {
      MoveOutWraps(s, current, rto);
      MoveOutWraps(s, 0, 0);
      FillStep(s, cwnd, current, rto);
      FillWraps(MoveOut(Wide, s, current, rto), cwnd, current, rto);
      FillWraps(MoveOut(Wide, s, 0, 0), cwnd, 0, 0);
    }
  }

  lemma FillStep(s: Snd, cwnd: int, current: int, rto: int)
    requires CanMoveOut(Wide, s, cwnd) && cwnd <= MAX_WND
    ensures MoveOut(Wide, s, current, rto).nxt == s.nxt + 1 <= s.una + MAX_WND
    ensures MoveOut(Wide, s, current, rto).una == s.una
    ensures |MoveOut(Wide, s, current, rto).que| < |s.que|
    ensures MoveOut(Wide, s, 0, 0).nxt == s.nxt + 1 && MoveOut(Wide, s, 0, 0).una == s.una
    ensures |MoveOut(Wide, s, 0, 0).que| < |s.que|
  {
  }

  // ---------------------------------------------------------------------
  // Receiver
  // ---------------------------------------------------------------------

  ghost predicate CloseToSegs(x: int, buf: seq<RcvSeg>) {
    forall i :: 0 <= i < |buf| ==> Close(x, buf[i].sn)
  }

  lemma {:induction false} FindSlotWraps(buf: seq<RcvSeg>, sn: int)
    requires CloseToSegs(sn, buf)
    ensures FindSlot(Ring32, WrapSegs(buf), U32(sn)) == FindSlot(Wide, buf, sn)
  {
    hide U32, I32;
    if buf != [] {
      var n := |buf| - 1;
      WrapDiff(sn, buf[n].sn);
      if U32(sn) == U32(buf[n].sn) {
        WrapInjective(sn, buf[n].sn);
      }
      MapTail(WrapRcvSeg, buf, n);
      FindSlotWraps(buf[..n], sn);
    }
  }

  lemma InsertWraps(buf: seq<RcvSeg>, seg: RcvSeg)
    requires CloseToSegs(seg.sn, buf)
    ensures Insert(Ring32, WrapSegs(buf), WrapRcvSeg(seg)) == WrapSegs(Insert(Wide, buf, seg))
  {
    hide U32, FindSlot;
    FindSlotWraps(buf, seg.sn);
    match FindSlot(Wide, buf, seg.sn)
    case Repeat =>
    case At(i) =>
      MapTail(WrapRcvSeg, buf, i);
      MapOne(WrapRcvSeg, seg);
      MapConcat(WrapRcvSeg, buf[..i], [seg]);
      MapConcat(WrapRcvSeg, buf[..i] + [seg], buf[i..]);
  }

  lemma MoveHeadWraps(k: Rcv)
    requires k.buf != []
    ensures MoveHead(Ring32, WrapRcv(k)) == WrapRcv(MoveHead(Wide, k))
    ensures |MoveHead(Wide, k).buf| < |k.buf|
  {
    NormNextWraps(k.nxt);
    hide U32;
    MapTail(WrapRcvSeg, k.buf, 1);
    MapConcat(WrapRcvSeg, k.que, [k.buf[0]]);
    MapOne(WrapRcvSeg, k.buf[0]);
  }

  lemma {:induction false} DrainWraps(wnd: int, k: Rcv)
    requires WndOk(wnd) && Draining(Wide, wnd, k)
    ensures Drain(Ring32, wnd, WrapRcv(k)) == WrapRcv(Drain(Wide, wnd, k))
    decreases |k.buf|
  {
    hide U32, MoveHead;
    if k.buf != [] {
      assert Diff(Wide, k.buf[0].sn, k.nxt) < wnd;
      if U32(k.buf[0].sn) == U32(k.nxt) {
        WrapInjective(k.buf[0].sn, k.nxt);
      }
      if Deliverable(wnd, k) {
        MoveHeadOk(Wide, wnd, k);
        MoveHeadWraps(k);
        DrainWraps(wnd, MoveHead(Wide, k));
      }
    }
  }

  lemma WideDiff(sn: int, nxt: int, wnd: int)
    ensures Diff(Wide, sn, Norm(Wide, nxt + wnd)) == sn - (nxt + wnd) && Diff(Wide, sn, nxt) == sn - nxt
    ensures Norm(Ring32, nxt) == U32(nxt) && Norm(Ring32, U32(nxt) + wnd) == U32(U32(nxt) + wnd)
    ensures Norm(Ring32, nxt + wnd) == U32(nxt + wnd)
  {
  }

  /** Compared first with the end of the window, the test is exact for numbers from half the range before it. */
  lemma InWindowWraps(wnd: int, nxt: int, sn: int)
    requires WndOk(wnd) && Close(sn, nxt + wnd)
    ensures InWindow(Ring32, wnd, U32(nxt), U32(sn)) == InWindow(Wide, wnd, nxt, sn)
  {
    hide U32, Diff;
    WrapDiff(sn, nxt + wnd);
    NormAdd(Ring32, nxt, wnd);
    WideDiff(sn, nxt, wnd);
    if sn < nxt + wnd {
      WrapDiff(sn, nxt);
    }
  }

  lemma ParseDataWraps(wnd: int, k: Rcv, seg: RcvSeg)
    requires WndOk(wnd) && RcvInv(Wide, wnd, k) && Close(seg.sn, k.nxt + wnd)
    ensures ParseData(Ring32, wnd, WrapRcv(k), WrapRcvSeg(seg)) == WrapRcv(ParseData(Wide, wnd, k, seg))
  {
    InWindowWraps(wnd, k.nxt, seg.sn);
    if InWindow(Wide, wnd, k.nxt, seg.sn) {
      var k' := k.(buf := Insert(Wide, k.buf, seg));
      assert CloseToSegs(seg.sn, k.buf) by {
        forall i | 0 <= i < |k.buf|
          ensures Close(seg.sn, k.buf[i].sn)
        {
          assert 0 <= Diff(Wide, k.buf[i].sn, k.nxt) < wnd;
        }
      }
      InsertWraps(k.buf, seg);
      InsertOk(Wide, wnd, k.nxt, k.buf, seg);
      DrainWraps(wnd, k');
    }
  }

  lemma {:induction false} FrontCountWraps(que: seq<RcvSeg>)
    ensures FrontCount(WrapSegs(que)) == FrontCount(que)
  {
    hide U32;
    if que != [] {
      MapTail(WrapRcvSeg, que, 1);
      FrontCountWraps(que[1..]);
    }
  }

  lemma {:induction false} BytesWrap(que: seq<RcvSeg>)
    ensures Bytes(WrapSegs(que)) == Bytes(que)
  {
    hide U32;
    if que != [] {
      MapTail(WrapRcvSeg, que, 1);
      BytesWrap(que[1..]);
    }
  }

  lemma PeekSizeWraps(que: seq<RcvSeg>)
    ensures PeekSize(WrapSegs(que)) == PeekSize(que)
  {
    hide U32, Bytes;
    FrontCountWraps(que);
    MapTail(WrapRcvSeg, que, FrontCount(que));
    BytesWrap(que[..FrontCount(que)]);
  }

  /** ikcp_recv returns the same bytes on both rings. */
  lemma RecvFrontWraps(wnd: int, k: Rcv, len: int)
    requires WndOk(wnd) && RcvInv(Wide, wnd, k)
    ensures var v, v' := RecvFront(Wide, wnd, k, len), RecvFront(Ring32, wnd, WrapRcv(k), len);
      v' == v.(k := WrapRcv(v.k))
  {
    hide U32, Bytes, PeekSize, Drain;
    var n := FrontCount(k.que);
    FrontCountWraps(k.que);
    PeekSizeWraps(k.que);
    MapTail(WrapRcvSeg, k.que, n);
    BytesWrap(k.que[..n]);
    if k.que != [] {
      RestDraining(wnd, k, n);
      DrainWraps(wnd, k);
      DrainWraps(wnd, k.(que := k.que[n..]));
    }
  }

  lemma RestDraining(wnd: int, k: Rcv, n: nat)
    requires Draining(Wide, wnd, k) && n <= |k.que|
    ensures Draining(Wide, wnd, k.(que := k.que[n..]))
  {
    assert forall i :: 0 <= i < |k.que| - n ==> k.que[n..][i] == k.que[n + i];
  }
}
