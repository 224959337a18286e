/**
 The sending half of a KCP control block: the queue of fragments waiting for a
 number, and the numbered segments waiting for an acknowledgement.
 */
module Sender {
  import opened SerialArith

  /** A fragment in snd_queue. */
  datatype Frag = Frag(frg: int, data: seq<byte>)

  /** A numbered segment in snd_buf. */
  datatype SndSeg = SndSeg(sn: int, frag: Frag, resendts: int, rto: int, fastack: int, xmit: int)

  datatype Snd = Snd(una: int, nxt: int, buf: seq<SndSeg>, que: seq<Frag>)

  // ---------------------------------------------------------------------
  // Acknowledgements
  // ---------------------------------------------------------------------

  /** ikcp_parse_una: drops the leading segments below una. */
  function DropBelow(r: Ring, buf: seq<SndSeg>, una: int): seq<SndSeg> {
    if buf != [] && Diff(r, una, buf[0].sn) > 0 then DropBelow(r, buf[1..], una) else buf
  }

  /** ikcp_shrink_buf: snd_una is the oldest unacknowledged number. */
  function Shrink(s: Snd): Snd {
    s.(una := if s.buf != [] then s.buf[0].sn else s.nxt)
  }

  function ParseUna(r: Ring, s: Snd, una: int): Snd {
    Shrink(s.(buf := DropBelow(r, s.buf, una)))
  }

  function Remove(r: Ring, buf: seq<SndSeg>, sn: int): seq<SndSeg> {
    if buf == [] then []
    else if buf[0].sn == sn then buf[1..]
    else if Diff(r, sn, buf[0].sn) < 0 then buf
    else [buf[0]] + Remove(r, buf[1..], sn)
  }

  /** The number is one the sender has in flight or has already dropped: [una, nxt). */
  predicate Outstanding(r: Ring, s: Snd, sn: int) {
    Diff(r, sn, s.una) >= 0 && Diff(r, sn, s.nxt) < 0
  }

  /** ikcp_parse_ack followed by ikcp_shrink_buf. */
  function ParseAck(r: Ring, s: Snd, sn: int): Snd {
    Shrink(if Outstanding(r, s, sn) then s.(buf := Remove(r, s.buf, sn)) else s)
  }

  /** The loop of ikcp_parse_fastack: every segment the acknowledgement skipped. */
  function Skip(r: Ring, buf: seq<SndSeg>, sn: int): seq<SndSeg> {
    if buf == [] || Diff(r, sn, buf[0].sn) < 0 then buf
    else
      var seg := buf[0];
      [if sn != seg.sn then seg.(fastack := U32(seg.fastack + 1)) else seg] + Skip(r, buf[1..], sn)
  }

  function ParseFastack(r: Ring, s: Snd, sn: int): Snd {
    if Outstanding(r, s, sn) then s.(buf := Skip(r, s.buf, sn)) else s
  }

  // ---------------------------------------------------------------------
  // Numbering
  // ---------------------------------------------------------------------

  function Numbered(s: Snd, current: int, rto: int): SndSeg
    requires s.que != []
  {
    SndSeg(s.nxt, s.que[0], current, rto, 0, 0)
  }

  /** The head of snd_queue gets the next number and moves to snd_buf. */
  function MoveOut(r: Ring, s: Snd, current: int, rto: int): Snd
    requires s.que != []
  {
    Snd(s.una, Norm(r, s.nxt + 1), s.buf + [Numbered(s, current, rto)], s.que[1..])
  }

  predicate CanMoveOut(r: Ring, s: Snd, cwnd: int) {
    s.que != [] && Diff(r, s.nxt, Norm(r, s.una + cwnd)) < 0
  }

  /** Numbers fragments while the window has room. */
  function Fill(r: Ring, s: Snd, cwnd: int, current: int, rto: int): Snd
    decreases |s.que|
  {
    if CanMoveOut(r, s, cwnd) then Fill(r, MoveOut(r, s, current, rto), cwnd, current, rto) else s
  }

  // ---------------------------------------------------------------------
  // Invariant
  // ---------------------------------------------------------------------

  /** The widest send window a peer can announce. */
  const MAX_WND := 65535

  ghost predicate SegsOk(r: Ring, una: int, limit: int, buf: seq<SndSeg>) {
    && (forall i :: 0 <= i < |buf| ==> Norm(r, buf[i].sn) == buf[i].sn && 0 <= Diff(r, buf[i].sn, una) < limit)
    && (forall i, j :: 0 <= i < j < |buf| ==> Diff(r, buf[i].sn, una) < Diff(r, buf[j].sn, una))
  }

  /** What holds between dropping segments and recomputing snd_una. */
  ghost predicate Loose(r: Ring, wnd: int, s: Snd) {
    && Norm(r, s.una) == s.una && Norm(r, s.nxt) == s.nxt
    && 0 <= Diff(r, s.nxt, s.una) <= wnd
    && SegsOk(r, s.una, Diff(r, s.nxt, s.una), s.buf)
  }

  /**
   snd_buf is strictly ascending inside [snd_una, snd_nxt), snd_una is its head
   (snd_nxt when it is empty), and at most wnd numbers are outstanding.
   */
  ghost predicate SndInv(r: Ring, wnd: int, s: Snd) {
    && Loose(r, wnd, s)
    && s.una == Shrink(s).una
  }

  ghost predicate SndWndOk(wnd: int) {
    0 <= wnd <= MAX_WND
  }

  /** Moving the base of the window up to una' keeps the order. */
  lemma Rebase(r: Ring, una: int, limit: int, buf: seq<SndSeg>, una': int, nxt: int)
    requires SegsOk(r, una, limit, buf) && 0 <= limit <= MAX_WND && limit == Diff(r, nxt, una)
    requires 0 <= Diff(r, una', una) <= limit
    requires buf != [] ==> Diff(r, una', una) <= Diff(r, buf[0].sn, una)
    ensures SegsOk(r, una', limit - Diff(r, una', una), buf)
    ensures Diff(r, nxt, una') == limit - Diff(r, una', una)
  {
    hide Diff;
    hide Norm;
    forall i | 0 <= i < |buf|
      ensures Diff(r, buf[i].sn, una') == Diff(r, buf[i].sn, una) - Diff(r, una', una)
      ensures Diff(r, buf[i].sn, una) >= Diff(r, una', una)
    {
      if i > 0 {
        assert Diff(r, buf[0].sn, una) < Diff(r, buf[i].sn, una);
      }
      DiffShift(r, buf[i].sn, una', una);
    }
    DiffShift(r, nxt, una', una);
  }

  /** ikcp_shrink_buf restores the invariant and never moves snd_una back. */
  lemma ShrinkRestores(r: Ring, wnd: int, s: Snd)
    requires SndWndOk(wnd) && Loose(r, wnd, s)
    ensures SndInv(r, wnd, Shrink(s))
    ensures 0 <= Diff(r, Shrink(s).una, s.una) <= Diff(r, s.nxt, s.una)
  {
    var s' := Shrink(s);
    Rebase(r, s.una, Diff(r, s.nxt, s.una), s.buf, s'.una, s.nxt);
  }

  /** A suffix of an ordered buffer is ordered. */
  lemma SuffixOk(r: Ring, una: int, limit: int, buf: seq<SndSeg>, p: nat)
    requires SegsOk(r, una, limit, buf) && p <= |buf|
    ensures SegsOk(r, una, limit, buf[p..])
  {
    hide Diff;
    hide Norm;
    assert forall i :: 0 <= i < |buf| - p ==> buf[p..][i] == buf[p + i];
  }

  /** How many leading segments lie below una. */
  function CountBelow(r: Ring, buf: seq<SndSeg>, una: int): (p: nat)
    ensures p <= |buf|
  {
    if buf != [] && Diff(r, una, buf[0].sn) > 0 then 1 + CountBelow(r, buf[1..], una) else 0
  }

  /** ikcp_parse_una removes exactly a prefix: the segments below una. */
  lemma {:induction false} DropBelowIsSuffix(r: Ring, buf: seq<SndSeg>, una: int)
    ensures var p := CountBelow(r, buf, una);
      && DropBelow(r, buf, una) == buf[p..]
      && (forall i :: 0 <= i < p ==> Diff(r, una, buf[i].sn) > 0)
      && (p < |buf| ==> Diff(r, una, buf[p].sn) <= 0)
  {
    hide Diff;
    if buf != [] && Diff(r, una, buf[0].sn) > 0 {
      DropBelowIsSuffix(r, buf[1..], una);
    }
  }

  lemma ParseUnaKeepsInv(r: Ring, wnd: int, s: Snd, una: int)
    requires SndWndOk(wnd) && SndInv(r, wnd, s)
    ensures SndInv(r, wnd, ParseUna(r, s, una))
    ensures 0 <= Diff(r, ParseUna(r, s, una).una, s.una) <= Diff(r, s.nxt, s.una)
  {
    DropBelowIsSuffix(r, s.buf, una);
    SuffixOk(r, s.una, Diff(r, s.nxt, s.una), s.buf, CountBelow(r, s.buf, una));
    ShrinkRestores(r, wnd, s.(buf := DropBelow(r, s.buf, una)));
  }

  /** Where the scan of ikcp_parse_ack finds sn, or |buf| when it gives up. */
  function IndexOf(r: Ring, buf: seq<SndSeg>, sn: int): (p: nat)
    ensures p <= |buf|
    ensures p < |buf| ==> buf[p].sn == sn
  {
    if buf == [] || buf[0].sn == sn then 0
    else if Diff(r, sn, buf[0].sn) < 0 then |buf|
    else 1 + IndexOf(r, buf[1..], sn)
  }

  /** ikcp_parse_ack removes one entry, the first with number sn, or nothing. */
  lemma {:induction false} RemoveIsCut(r: Ring, buf: seq<SndSeg>, sn: int)
    ensures var p := IndexOf(r, buf, sn);
      Remove(r, buf, sn) == if p < |buf| then buf[..p] + buf[p + 1..] else buf
  {
    hide Diff;
    if buf != [] && buf[0].sn != sn && !(Diff(r, sn, buf[0].sn) < 0) {
      RemoveIsCut(r, buf[1..], sn);
    }
  }

  /** On an ordered buffer giving up means sn is not there, so early exit loses nothing. */
  lemma {:induction false} IndexOfComplete(r: Ring, una: int, limit: int, buf: seq<SndSeg>, sn: int)
    requires SegsOk(r, una, limit, buf) && 0 <= limit <= MAX_WND
    requires 0 <= Diff(r, sn, una) < limit
    ensures IndexOf(r, buf, sn) == |buf| ==> forall i :: 0 <= i < |buf| ==> buf[i].sn != sn
  {
    hide Diff;
    hide Norm;
    if buf != [] && buf[0].sn != sn {
      DiffShift(r, sn, buf[0].sn, una);
      if !(Diff(r, sn, buf[0].sn) < 0) {
        SuffixOk(r, una, limit, buf, 1);
        IndexOfComplete(r, una, limit, buf[1..], sn);
      }
    }
  }

  lemma CutOk(r: Ring, una: int, limit: int, buf: seq<SndSeg>, p: nat)
    requires SegsOk(r, una, limit, buf) && p < |buf|
    ensures SegsOk(r, una, limit, buf[..p] + buf[p + 1..])
  {
    hide Diff;
    hide Norm;
    var cut := buf[..p] + buf[p + 1..];
    assert forall i :: 0 <= i < |cut| ==> cut[i] == buf[if i < p then i else i + 1];
  }

  lemma RemoveOk(r: Ring, una: int, limit: int, buf: seq<SndSeg>, sn: int)
    requires SegsOk(r, una, limit, buf)
    ensures SegsOk(r, una, limit, Remove(r, buf, sn))
  {
    RemoveIsCut(r, buf, sn);
    if IndexOf(r, buf, sn) < |buf| {
      CutOk(r, una, limit, buf, IndexOf(r, buf, sn));
    }
  }

  lemma ParseAckKeepsInv(r: Ring, wnd: int, s: Snd, sn: int)
    requires SndWndOk(wnd) && SndInv(r, wnd, s)
    ensures SndInv(r, wnd, ParseAck(r, s, sn))
    ensures 0 <= Diff(r, ParseAck(r, s, sn).una, s.una) <= Diff(r, s.nxt, s.una)
  {
    RemoveOk(r, s.una, Diff(r, s.nxt, s.una), s.buf, sn);
    ShrinkRestores(r, wnd, s.(buf := Remove(r, s.buf, sn)));
    ShrinkRestores(r, wnd, s);
  }

  /** Two buffers that differ in timers only. */
  ghost predicate SameSegs(a: seq<SndSeg>, b: seq<SndSeg>) {
    |a| == |b| && forall i :: 0 <= i < |a| ==> a[i].sn == b[i].sn && a[i].frag == b[i].frag
  }

  lemma SameSegsOk(r: Ring, wnd: int, s: Snd, buf: seq<SndSeg>)
    requires SndInv(r, wnd, s) && SameSegs(s.buf, buf)
    ensures SndInv(r, wnd, s.(buf := buf))
  {
    hide Diff;
    hide Norm;
  }

  lemma {:induction false} SkipSame(r: Ring, buf: seq<SndSeg>, sn: int)
    ensures SameSegs(buf, Skip(r, buf, sn))
  {
    hide Diff;
    if buf != [] {
      SkipSame(r, buf[1..], sn);
    }
  }

  lemma ParseFastackKeepsInv(r: Ring, wnd: int, s: Snd, sn: int)
    requires SndInv(r, wnd, s)
    ensures SndInv(r, wnd, ParseFastack(r, s, sn))
    ensures SameSegs(s.buf, ParseFastack(r, s, sn).buf)
  {
    SkipSame(r, s.buf, sn);
    SameSegsOk(r, wnd, s, Skip(r, s.buf, sn));
  }

  lemma MoveOutKeepsInv(r: Ring, wnd: int, s: Snd, cwnd: int, current: int, rto: int)
    requires SndWndOk(wnd) && SndInv(r, wnd, s) && 0 <= cwnd <= wnd && CanMoveOut(r, s, cwnd)
    ensures SndInv(r, wnd, MoveOut(r, s, current, rto))
    ensures Diff(r, MoveOut(r, s, current, rto).nxt, s.una) == Diff(r, s.nxt, s.una) + 1
  {
    hide Diff;
    hide Norm;
    DiffMove(r, s.nxt, s.una, cwnd);
    DiffNext(r, s.nxt, s.una);
    NormAdd(r, s.nxt + 1, 0);
    DiffSelf(r, s.una);
    Appended(r, s, current, rto);
  }

  lemma Appended(r: Ring, s: Snd, current: int, rto: int)
    requires s.que != [] && Norm(r, s.nxt) == s.nxt
    requires 0 <= Diff(r, s.nxt, s.una) && SegsOk(r, s.una, Diff(r, s.nxt, s.una), s.buf)
    ensures SegsOk(r, s.una, Diff(r, s.nxt, s.una) + 1, s.buf + [Numbered(s, current, rto)])
  {
    hide Diff;
    hide Norm;
  }

  /** Filling the window keeps the invariant, so at most snd_wnd numbers are ever outstanding. */
  lemma {:induction false} FillKeepsInv(r: Ring, wnd: int, s: Snd, cwnd: int, current: int, rto: int)
    requires SndWndOk(wnd) && SndInv(r, wnd, s) && 0 <= cwnd <= wnd
    ensures SndInv(r, wnd, Fill(r, s, cwnd, current, rto))
    ensures Fill(r, s, cwnd, current, rto).una == s.una
    decreases |s.que|
  {
    if CanMoveOut(r, s, cwnd) {
      MoveOutKeepsInv(r, wnd, s, cwnd, current, rto);
      FillKeepsInv(r, wnd, MoveOut(r, s, current, rto), cwnd, current, rto);
    }
  }

  /** Consecutive numbers from nxt on for a run of fragments. */
  function NumberAll(r: Ring, nxt: int, frags: seq<Frag>, current: int, rto: int): (segs: seq<SndSeg>)
    ensures |segs| == |frags|
    decreases |frags|
  {
    if frags == [] then []
    else [SndSeg(nxt, frags[0], current, rto, 0, 0)] + NumberAll(r, Norm(r, nxt + 1), frags[1..], current, rto)
  }

  lemma {:induction false} NumberAllAt(r: Ring, nxt: int, frags: seq<Frag>, current: int, rto: int, i: nat)
    requires i < |frags| && Norm(r, nxt) == nxt
    ensures NumberAll(r, nxt, frags, current, rto)[i] == SndSeg(Norm(r, nxt + i), frags[i], current, rto, 0, 0)
    decreases i
  {
    if i > 0 {
      NumberAllAt(r, Norm(r, nxt + 1), frags[1..], current, rto, i - 1);
      NormAdd(r, nxt + 1, i - 1);
    }
  }

  /** How many fragments ikcp_flush moves into the window. */
  function MoveCount(r: Ring, s: Snd, cwnd: int): (m: nat)
    ensures m <= |s.que|
    decreases |s.que|
  {
    if CanMoveOut(r, s, cwnd) then 1 + MoveCount(r, MoveOut(r, s, 0, 0), cwnd) else 0
  }

  lemma {:induction false} MoveCountIndep(r: Ring, s: Snd, t: Snd, cwnd: int)
    requires s.una == t.una && s.nxt == t.nxt && s.que == t.que
    ensures MoveCount(r, s, cwnd) == MoveCount(r, t, cwnd)
    decreases |s.que|
  {
    if CanMoveOut(r, s, cwnd) {
      MoveCountIndep(r, MoveOut(r, s, 0, 0), MoveOut(r, t, 0, 0), cwnd);
    }
  }

  /** Fragments leave snd_queue in FIFO order with consecutive numbers, behind what was in flight. */
  lemma {:induction false} FillIsFifo(r: Ring, s: Snd, cwnd: int, current: int, rto: int)
    requires Norm(r, s.nxt) == s.nxt
    ensures var m := MoveCount(r, s, cwnd);
      Fill(r, s, cwnd, current, rto) == Snd(s.una, Norm(r, s.nxt + m),
        s.buf + NumberAll(r, s.nxt, s.que[..m], current, rto), s.que[m..])
    decreases |s.que|
  {
    hide Diff;
    hide Norm;
    NormAdd(r, s.nxt + 1, 0);
    if CanMoveOut(r, s, cwnd) {
      var t := MoveOut(r, s, current, rto);
      var m := MoveCount(r, t, cwnd);
      MoveCountIndep(r, t, MoveOut(r, s, 0, 0), cwnd);
      FillIsFifo(r, t, cwnd, current, rto);
      NormAdd(r, s.nxt + 1, m);
      FifoStep(r, s, m, current, rto);
    }
  }

  lemma FifoStep(r: Ring, s: Snd, m: nat, current: int, rto: int)
    requires m < |s.que|
    ensures s.buf + [Numbered(s, current, rto)] + NumberAll(r, Norm(r, s.nxt + 1), s.que[1..][..m], current, rto)
         == s.buf + NumberAll(r, s.nxt, s.que[..m + 1], current, rto)
    ensures s.que[1..][m..] == s.que[m + 1..]
  {
    assert s.que[..m + 1][1..] == s.que[1..][..m];
  }
}
