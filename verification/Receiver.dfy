/**
 The receiving half of a KCP control block: the reorder buffer rcv_buf, the
 in-order queue rcv_queue and the next expected number rcv_nxt.
 */
module Receiver {
  import opened SerialArith

  datatype RcvSeg = RcvSeg(sn: int, frg: int, data: seq<byte>)

  datatype Rcv = Rcv(nxt: int, buf: seq<RcvSeg>, que: seq<RcvSeg>)

  // ---------------------------------------------------------------------
  // ikcp_parse_data
  // ---------------------------------------------------------------------

  /** Where the backward scan of rcv_buf puts a number: a repeat, or after the first i entries. */
  datatype Slot = Repeat | At(i: nat)

  function FindSlot(r: Ring, buf: seq<RcvSeg>, sn: int): (slot: Slot)
    ensures slot.At? ==> slot.i <= |buf|
  {
    if buf == [] then At(0)
    else
      var last := buf[|buf| - 1];
      if last.sn == sn then Repeat
      else if Diff(r, sn, last.sn) > 0 then At(|buf|)
      else FindSlot(r, buf[..|buf| - 1], sn)
  }

  function Insert(r: Ring, buf: seq<RcvSeg>, seg: RcvSeg): seq<RcvSeg> {
    match FindSlot(r, buf, seg.sn)
    case Repeat => buf
    case At(i) => buf[..i] + [seg] + buf[i..]
  }

  /** The head of rcv_buf may move to rcv_queue. */
  predicate Deliverable(wnd: int, k: Rcv) {
    k.buf != [] && k.buf[0].sn == k.nxt && |k.que| < wnd
  }

  function MoveHead(r: Ring, k: Rcv): Rcv
    requires k.buf != []
  {
    Rcv(Norm(r, k.nxt + 1), k.buf[1..], k.que + [k.buf[0]])
  }

  /** Moves every deliverable head from rcv_buf to rcv_queue. */
  function Drain(r: Ring, wnd: int, k: Rcv): Rcv
    decreases |k.buf|
  {
    if Deliverable(wnd, k) then Drain(r, wnd, MoveHead(r, k)) else k
  }

  predicate InWindow(r: Ring, wnd: int, nxt: int, sn: int) {
    Diff(r, sn, Norm(r, nxt + wnd)) < 0 && Diff(r, sn, nxt) >= 0
  }

  function ParseData(r: Ring, wnd: int, k: Rcv, seg: RcvSeg): Rcv {
    if InWindow(r, wnd, k.nxt, seg.sn)
    then Drain(r, wnd, k.(buf := Insert(r, k.buf, seg)))
    else k
  }

  // ---------------------------------------------------------------------
  // ikcp_peeksize and ikcp_recv
  // ---------------------------------------------------------------------

  /** Number of queue entries up to and including the first with frg == 0 (or all of them). */
  function FrontCount(que: seq<RcvSeg>): (n: nat)
    ensures n <= |que|
    ensures que != [] ==> n > 0
  {
    if que == [] then 0
    else if que[0].frg == 0 then 1
    else 1 + FrontCount(que[1..])
  }

  function Bytes(que: seq<RcvSeg>): seq<byte> {
    if que == [] then [] else que[0].data + Bytes(que[1..])
  }

  lemma {:induction false} BytesOfBoth(a: seq<RcvSeg>, b: seq<RcvSeg>)
    ensures Bytes(a + b) == Bytes(a) + Bytes(b)
  {
    if a == [] {
      assert a + b == b;
    } else {
      assert (a + b)[1..] == a[1..] + b;
      BytesOfBoth(a[1..], b);
    }
  }

  /** ikcp_peeksize: -1 unless the front message is complete. */
  function PeekSize(que: seq<RcvSeg>): int {
    if que == [] then -1
    else if que[0].frg != 0 && |que| < que[0].frg + 1 then -1
    else |Bytes(que[..FrontCount(que)])|
  }

  datatype RecvResult = RecvResult(k: Rcv, ret: int, data: seq<byte>, tell: bool)

  /**
   ikcp_recv with a buffer of len bytes. A negative len only peeks. The flag
   tell asks the next flush to announce the reopened window.
   */
  function RecvFront(r: Ring, wnd: int, k: Rcv, len: int): RecvResult {
    if k.que == [] then RecvResult(k, -1, [], false)
    else
      var size := PeekSize(k.que);
      if size < 0 then RecvResult(k, -2, [], false)
      else if size > (if len < 0 then -len else len) then RecvResult(k, -3, [], false)
      else
        var n := FrontCount(k.que);
        var data := Bytes(k.que[..n]);
        var taken := if len < 0 then k else k.(que := k.que[n..]);
        var k' := Drain(r, wnd, taken);
        RecvResult(k', size, data, |k'.que| < wnd <= |k.que|)
  }

  // ---------------------------------------------------------------------
  // Invariant
  // ---------------------------------------------------------------------

  ghost predicate BufOk(r: Ring, wnd: int, nxt: int, buf: seq<RcvSeg>) {
    && (forall i :: 0 <= i < |buf| ==> Norm(r, buf[i].sn) == buf[i].sn && 0 <= Diff(r, buf[i].sn, nxt) < wnd)
    && (forall i, j :: 0 <= i < j < |buf| ==> Diff(r, buf[i].sn, nxt) < Diff(r, buf[j].sn, nxt))
  }

  ghost predicate QueOk(r: Ring, nxt: int, que: seq<RcvSeg>) {
    forall i :: 0 <= i < |que| ==> que[i].sn == Norm(r, nxt - |que| + i)
  }

  /** Everything but "no deliverable head": what holds while the drain loop runs. */
  ghost predicate Draining(r: Ring, wnd: int, k: Rcv) {
    && Norm(r, k.nxt) == k.nxt
    && BufOk(r, wnd, k.nxt, k.buf)
    && QueOk(r, k.nxt, k.que)
    && |k.que| <= wnd
  }

  /**
   rcv_buf is strictly ascending inside [rcv_nxt, rcv_nxt + rcv_wnd), rcv_queue
   holds consecutive numbers ending at rcv_nxt - 1, and nothing deliverable is
   left behind.
   */
  ghost predicate RcvInv(r: Ring, wnd: int, k: Rcv) {
    Draining(r, wnd, k) && !Deliverable(wnd, k)
  }

  /** Windows the engine accepts: at least 128, and announced in 16 bits. */
  predicate WndOk(wnd: int) {
    128 <= wnd <= 65535
  }

  /** The scan reports a repeat or splits the buffer at the new number. */
  ghost predicate SlotOk(r: Ring, nxt: int, buf: seq<RcvSeg>, sn: int, slot: Slot) {
    match slot
    case Repeat => exists i :: 0 <= i < |buf| && buf[i].sn == sn
    case At(p) =>
      && p <= |buf|
      && (forall i :: 0 <= i < p ==> Diff(r, buf[i].sn, nxt) < Diff(r, sn, nxt))
      && (forall i :: p <= i < |buf| ==> Diff(r, sn, nxt) < Diff(r, buf[i].sn, nxt))
  }

  /** What comparing with the last segment tells. */
  lemma LastSlot(r: Ring, wnd: int, nxt: int, buf: seq<RcvSeg>, sn: int)
    requires WndOk(wnd) && BufOk(r, wnd, nxt, buf) && Norm(r, sn) == sn && buf != []
    requires 0 <= Diff(r, sn, nxt) < wnd
    ensures var n := |buf| - 1;
      && BufOk(r, wnd, nxt, buf[..n])
      && (buf[n].sn != sn && Diff(r, sn, buf[n].sn) <= 0 ==> Diff(r, sn, nxt) < Diff(r, buf[n].sn, nxt))
      && (Diff(r, sn, buf[n].sn) > 0 ==> Diff(r, buf[n].sn, nxt) < Diff(r, sn, nxt))
  {
    hide Diff;
    hide Norm;
    var n := |buf| - 1;
    DiffShift(r, sn, buf[n].sn, nxt);
    if Diff(r, sn, nxt) == Diff(r, buf[n].sn, nxt) {
      DiffEq(r, sn, buf[n].sn, nxt);
    }
  }

  lemma {:induction false} FindSlotSpec(r: Ring, wnd: int, nxt: int, buf: seq<RcvSeg>, sn: int)
    requires WndOk(wnd) && BufOk(r, wnd, nxt, buf) && Norm(r, sn) == sn
    requires 0 <= Diff(r, sn, nxt) < wnd
    ensures SlotOk(r, nxt, buf, sn, FindSlot(r, buf, sn))
  {
    hide Diff;
    hide Norm;
    if buf != [] {
      var n := |buf| - 1;
      LastSlot(r, wnd, nxt, buf, sn);
      if buf[n].sn != sn && Diff(r, sn, buf[n].sn) <= 0 {
        FindSlotSpec(r, wnd, nxt, buf[..n], sn);
      }
    }
  }

  lemma InsertOk(r: Ring, wnd: int, nxt: int, buf: seq<RcvSeg>, seg: RcvSeg)
    requires WndOk(wnd) && BufOk(r, wnd, nxt, buf) && Norm(r, seg.sn) == seg.sn
    requires 0 <= Diff(r, seg.sn, nxt) < wnd
    ensures BufOk(r, wnd, nxt, Insert(r, buf, seg))
  {
    hide Diff;
    hide Norm;
    FindSlotSpec(r, wnd, nxt, buf, seg.sn);
  }

  lemma MoveHeadOk(r: Ring, wnd: int, k: Rcv)
    requires WndOk(wnd) && Draining(r, wnd, k) && Deliverable(wnd, k)
    ensures Draining(r, wnd, MoveHead(r, k))
  {
    var k' := MoveHead(r, k);
    assert Diff(r, k.nxt, k.nxt) == 0;
    forall i | 0 <= i < |k'.buf|
      ensures Diff(r, k'.buf[i].sn, k'.nxt) == Diff(r, k.buf[i + 1].sn, k.nxt) - 1
      ensures Diff(r, k.buf[i + 1].sn, k.nxt) > 0
    {
      assert Diff(r, k.buf[0].sn, k.nxt) < Diff(r, k.buf[i + 1].sn, k.nxt);
      DiffMove(r, k.buf[i + 1].sn, k.nxt, 1);
    }
    QueueGrows(r, k);
  }

  lemma QueueGrows(r: Ring, k: Rcv)
    requires k.buf != [] && k.buf[0].sn == k.nxt && Norm(r, k.nxt) == k.nxt
    requires QueOk(r, k.nxt, k.que)
    ensures QueOk(r, Norm(r, k.nxt + 1), k.que + [k.buf[0]])
  {
    var que := k.que + [k.buf[0]];
    forall i | 0 <= i < |que|
      ensures que[i].sn == Norm(r, Norm(r, k.nxt + 1) - |que| + i)
    {
      NormAdd(r, k.nxt + 1, i - |que|);
      assert k.nxt + 1 + (i - |que|) == k.nxt - |k.que| + i;
    }
  }

  lemma {:induction false} DrainOk(r: Ring, wnd: int, k: Rcv)
    requires WndOk(wnd) && Draining(r, wnd, k)
    ensures RcvInv(r, wnd, Drain(r, wnd, k))
    decreases |k.buf|
  {
    if Deliverable(wnd, k) {
      MoveHeadOk(r, wnd, k);
      DrainOk(r, wnd, MoveHead(r, k));
    }
  }

  lemma InWindowMeaning(r: Ring, wnd: int, nxt: int, sn: int)
    requires WndOk(wnd)
    ensures InWindow(r, wnd, nxt, sn) <==> 0 <= Diff(r, sn, nxt) < wnd
  {
    var d := DiffUnfold(r, sn, nxt);
    if Near(r, Diff(r, sn, nxt) - wnd) {
      DiffMove(r, sn, nxt, wnd);
    }
  }

  /** Whatever arrives, ikcp_parse_data keeps the receiver invariant. */
  lemma ParseDataKeepsInv(r: Ring, wnd: int, k: Rcv, seg: RcvSeg)
    requires WndOk(wnd) && RcvInv(r, wnd, k) && Norm(r, seg.sn) == seg.sn
    ensures RcvInv(r, wnd, ParseData(r, wnd, k, seg))
  {
    if InWindow(r, wnd, k.nxt, seg.sn) {
      InWindowMeaning(r, wnd, k.nxt, seg.sn);
      InsertOk(r, wnd, k.nxt, k.buf, seg);
      DrainOk(r, wnd, k.(buf := Insert(r, k.buf, seg)));
    }
  }

  /** So does ikcp_recv, whether it delivers, peeks or refuses. */
  lemma RecvFrontKeepsInv(r: Ring, wnd: int, k: Rcv, len: int)
    requires WndOk(wnd) && RcvInv(r, wnd, k)
    ensures RcvInv(r, wnd, RecvFront(r, wnd, k, len).k)
  {
    var n := FrontCount(k.que);
    var taken := k.(que := k.que[n..]);
    assert QueOk(r, taken.nxt, taken.que) by {
      forall i | 0 <= i < |taken.que|
        ensures taken.que[i].sn == Norm(r, k.nxt - |taken.que| + i)
      {
        assert taken.que[i] == k.que[n + i];
      }
    }
    DrainOk(r, wnd, taken);
    DrainOk(r, wnd, k);
  }

  /** A strictly ascending buffer inside a window of wnd numbers has at most wnd entries. */
  lemma {:induction false} BufBounded(r: Ring, wnd: int, nxt: int, buf: seq<RcvSeg>)
    requires BufOk(r, wnd, nxt, buf) && wnd >= 0
    ensures |buf| <= wnd
    ensures forall i :: 0 <= i < |buf| ==> i <= Diff(r, buf[i].sn, nxt)
  {
    var i := 0;
    while i < |buf|
      invariant 0 <= i <= |buf|
      invariant forall j :: 0 <= j < i ==> j <= Diff(r, buf[j].sn, nxt)
    {
      if i > 0 {
        assert i - 1 <= Diff(r, buf[i - 1].sn, nxt) < Diff(r, buf[i].sn, nxt);
      }
      i := i + 1;
    }
    assert buf != [] ==> |buf| - 1 <= Diff(r, buf[|buf| - 1].sn, nxt) < wnd;
  }

  /** How many segments the drain loop moves. */
  function DrainCount(r: Ring, wnd: int, k: Rcv): (m: nat)
    ensures m <= |k.buf|
    decreases |k.buf|
  {
    if Deliverable(wnd, k) then 1 + DrainCount(r, wnd, MoveHead(r, k)) else 0
  }

  /** Draining moves a prefix of rcv_buf, numbered consecutively from rcv_nxt, and changes nothing else. */
  lemma {:induction false} DrainMovesPrefix(r: Ring, wnd: int, k: Rcv)
    requires Norm(r, k.nxt) == k.nxt
    ensures var m := DrainCount(r, wnd, k);
      && Drain(r, wnd, k) == Rcv(Norm(r, k.nxt + m), k.buf[m..], k.que + k.buf[..m])
      && (forall i :: 0 <= i < m ==> k.buf[i].sn == Norm(r, k.nxt + i))
    decreases |k.buf|
  {
    hide Norm;
    if Deliverable(wnd, k) {
      var t := MoveHead(r, k);
      var m := DrainCount(r, wnd, t);
      NormAdd(r, k.nxt + 1, 0);
      NormAdd(r, k.nxt + 1, m);
      DrainMovesPrefix(r, wnd, t);
      forall i | 0 <= i < m + 1
        ensures k.buf[i].sn == Norm(r, k.nxt + i)
      {
        if i > 0 {
          assert t.buf[i - 1] == k.buf[i];
          NormAdd(r, k.nxt + 1, i - 1);
        }
      }
      assert k.que + [k.buf[0]] + k.buf[1..][..m] == k.que + k.buf[..m + 1];
      assert k.buf[1..][m..] == k.buf[m + 1..];
    } else {
      assert k.que + k.buf[..0] == k.que;
    }
  }
}
