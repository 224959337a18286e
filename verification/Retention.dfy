/**
 The sending end of one direction of a connection, against the log of every
 fragment it has numbered. Numbers are unbounded here.
 */
module Retention {
  import opened SerialArith
  import opened Receiver
  import opened Sender
  import opened Fragments
  import opened Codec
  import opened Reassembly
  import opened Engine
  import opened EngineInvariant

  /** A sender and its history: what it has numbered, and what the user has written. */
  datatype Tx = Tx(snd: Snd, log: seq<Frag>, written: seq<byte>, said: seq<seq<byte>>, whole: bool)

  /** The segment is the fragment the log has under its number. */
  predicate Logged(log: seq<Frag>, seg: SndSeg) {
    0 <= seg.sn < |log| && seg.frag == log[seg.sn]
  }

  ghost predicate AllLogged(log: seq<Frag>, buf: seq<SndSeg>) {
    forall i :: 0 <= i < |buf| ==> Logged(log, buf[i])
  }

  predicate Unacked(buf: seq<SndSeg>, sn: int) {
    exists i :: 0 <= i < |buf| && buf[i].sn == sn
  }

  /** What has been written is what has been numbered and then what is queued. */
  ghost predicate TxHistory(mss: int, tx: Tx) {
    && tx.written == Join(tx.log) + Join(tx.snd.que)
    && WellCut(mss, tx.log + tx.snd.que)
    && (tx.whole ==> tx.said == Messages(tx.log + tx.snd.que))
  }

  ghost predicate TxInv(wnd: int, mss: int, tx: Tx) {
    && SndInv(Wide, wnd, tx.snd)
    && 0 <= tx.snd.una && tx.snd.nxt == |tx.log|
    && AllLogged(tx.log, tx.snd.buf)
    && TxHistory(mss, tx)
  }

  /** Every fragment numbered so far is in flight or held by the peer: nothing is forgotten. */
  ghost predicate Retained(buf: seq<SndSeg>, sent: int, peer: Rcv) {
    forall n :: 0 <= n < sent ==> Unacked(buf, n) || Held(peer, n)
  }

  // ---------------------------------------------------------------------
  // Acknowledgements only remove what the peer holds
  // ---------------------------------------------------------------------

  lemma UnaRetains(s: Snd, una: int, sent: int, peer: Rcv)
    requires Retained(s.buf, sent, peer) && una <= peer.nxt
    ensures Retained(ParseUna(Wide, s, una).buf, sent, peer)
  {
    DropBelowIsSuffix(Wide, s.buf, una);
    var p := CountBelow(Wide, s.buf, una);
    forall n | 0 <= n < sent && !Held(peer, n)
      ensures Unacked(ParseUna(Wide, s, una).buf, n)
    {
      var i :| 0 <= i < |s.buf| && s.buf[i].sn == n;
      assert i >= p;
      assert s.buf[p..][i - p].sn == n;
    }
  }

  lemma AckRetains(s: Snd, sn: int, sent: int, peer: Rcv)
    requires Retained(s.buf, sent, peer) && Held(peer, sn)
    ensures Retained(ParseAck(Wide, s, sn).buf, sent, peer)
  {
    RemoveIsCut(Wide, s.buf, sn);
    var p := IndexOf(Wide, s.buf, sn);
    forall n | 0 <= n < sent && !Held(peer, n)
      ensures Unacked(ParseAck(Wide, s, sn).buf, n)
    {
      var i :| 0 <= i < |s.buf| && s.buf[i].sn == n;
      if p < |s.buf| && Outstanding(Wide, s, sn) {
        var cut := s.buf[..p] + s.buf[p + 1..];
        assert i != p;
        assert cut[if i < p then i else i - 1] == s.buf[i];
      }
    }
  }

  lemma AckLogged(log: seq<Frag>, s: Snd, w: Wire)
    requires AllLogged(log, s.buf)
    ensures AllLogged(log, SndAfter(Wide, s, w).buf)
  {
    hide Logged, Diff;
    DropBelowIsSuffix(Wide, s.buf, w.una);
    RemoveLogged(log, ParseUna(Wide, s, w.una).buf, w.sn);
  }

  lemma RemoveLogged(log: seq<Frag>, buf: seq<SndSeg>, sn: int)
    requires AllLogged(log, buf)
    ensures AllLogged(log, Remove(Wide, buf, sn))
  {
    hide Logged, Diff;
    RemoveIsCut(Wide, buf, sn);
  }

  /** An acknowledgement the peer could have sent keeps the sender correct and complete. */
  lemma AckKeepsTx(wnd: int, mss: int, tx: Tx, w: Wire, peer: Rcv)
    requires SndWndOk(wnd) && TxInv(wnd, mss, tx) && Sized(mss, tx.snd) && Retained(tx.snd.buf, |tx.log|, peer)
    requires w.una <= peer.nxt && (w.cmd == CMD_ACK ==> Held(peer, w.sn))
    ensures TxInv(wnd, mss, tx.(snd := SndAfter(Wide, tx.snd, w)))
    ensures Retained(SndAfter(Wide, tx.snd, w).buf, |tx.log|, peer)
  {
    hide Sized, Retained, AllLogged, TxHistory, SegsOk;
    SndAfterKeepsInv(Wide, wnd, mss, tx.snd, w);
    UnaRetains(tx.snd, w.una, |tx.log|, peer);
    AckLogged(tx.log, tx.snd, w);
    HistoryFrame(mss, tx, SndAfter(Wide, tx.snd, w));
    if w.cmd == CMD_ACK {
      AckRetains(ParseUna(Wide, tx.snd, w.una), w.sn, |tx.log|, peer);
    }
  }

  /** The history does not look at snd_buf. */
  lemma HistoryFrame(mss: int, tx: Tx, s: Snd)
    requires TxHistory(mss, tx) && s.que == tx.snd.que
    ensures TxHistory(mss, tx.(snd := s))
  {
  }

  /** Changing timers changes nothing here. */
  lemma TimersKeepTx(wnd: int, mss: int, tx: Tx, buf: seq<SndSeg>, peer: Rcv)
    requires TxInv(wnd, mss, tx) && SameSegs(tx.snd.buf, buf) && Retained(tx.snd.buf, |tx.log|, peer)
    ensures TxInv(wnd, mss, tx.(snd := tx.snd.(buf := buf)))
    ensures Retained(buf, |tx.log|, peer)
  {
    hide TxHistory, SegsOk;
    SameSegsOk(Wide, wnd, tx.snd, buf);
    HistoryFrame(mss, tx, tx.snd.(buf := buf));
    forall i | 0 <= i < |buf|
      ensures Logged(tx.log, buf[i])
    {
      assert Logged(tx.log, tx.snd.buf[i]);
    }
    forall n | 0 <= n < |tx.log| && !Held(peer, n)
      ensures Unacked(buf, n)
    {
      var i :| 0 <= i < |tx.snd.buf| && tx.snd.buf[i].sn == n;
      assert buf[i].sn == n;
    }
  }

  // ---------------------------------------------------------------------
  // Writing and numbering
  // ---------------------------------------------------------------------

  /** The sender after m fragments have been numbered. */
  function NumberFrags(tx: Tx, s: Snd, m: nat): Tx
    requires m <= |tx.snd.que|
  {
    tx.(snd := s, log := tx.log + tx.snd.que[..m])
  }

  lemma MoveOver(log: seq<Frag>, que: seq<Frag>, m: nat)
    requires m <= |que|
    ensures que[..m] + que[m..] == que
    ensures log + que[..m] + que[m..] == log + que
  {
  }

  lemma NumberHistory(mss: int, tx: Tx, s: Snd, m: nat)
    requires TxHistory(mss, tx) && m <= |tx.snd.que| && s.que == tx.snd.que[m..]
    ensures TxHistory(mss, NumberFrags(tx, s, m))
  {
    hide Join, WellCut, Messages;
    var head := tx.snd.que[..m];
    MoveOver(tx.log, tx.snd.que, m);
    JoinAppend(tx.log, head);
    JoinAppend(head, s.que);
    assert Join(tx.log) + Join(head) + Join(s.que) == Join(tx.log) + (Join(head) + Join(s.que));
  }

  lemma FillLogged(tx: Tx, cwnd: int, current: int, rto: int)
    requires AllLogged(tx.log, tx.snd.buf) && tx.snd.nxt == |tx.log|
    ensures var m := MoveCount(Wide, tx.snd, cwnd);
      AllLogged(tx.log + tx.snd.que[..m], Fill(Wide, tx.snd, cwnd, current, rto).buf)
  {
    FillIsFifo(Wide, tx.snd, cwnd, current, rto);
    var m := MoveCount(Wide, tx.snd, cwnd);
    var log, buf := tx.log + tx.snd.que[..m], Fill(Wide, tx.snd, cwnd, current, rto).buf;
    forall i | 0 <= i < |buf|
      ensures Logged(log, buf[i])
    {
      var j := i - |tx.snd.buf|;
      if j < 0 {
        assert Logged(tx.log, tx.snd.buf[i]);
      } else {
        NumberAllAt(Wide, tx.snd.nxt, tx.snd.que[..m], current, rto, j);
      }
    }
  }

  lemma FillRetains(tx: Tx, cwnd: int, current: int, rto: int, peer: Rcv)
    requires Retained(tx.snd.buf, |tx.log|, peer) && tx.snd.nxt == |tx.log|
    ensures var m := MoveCount(Wide, tx.snd, cwnd);
      Retained(Fill(Wide, tx.snd, cwnd, current, rto).buf, |tx.log| + m, peer)
  {
    FillIsFifo(Wide, tx.snd, cwnd, current, rto);
    var m := MoveCount(Wide, tx.snd, cwnd);
    var buf := Fill(Wide, tx.snd, cwnd, current, rto).buf;
    forall n | 0 <= n < |tx.log| + m && !Held(peer, n)
      ensures Unacked(buf, n)
    {
      var j := n - |tx.log|;
      if j < 0 {
        var i :| 0 <= i < |tx.snd.buf| && tx.snd.buf[i].sn == n;
        assert buf[i].sn == n;
      } else {
        NumberAllAt(Wide, tx.snd.nxt, tx.snd.que[..m], current, rto, j);
        assert buf[|tx.snd.buf| + j].sn == n;
      }
    }
  }

  /** Filling the window extends the log by the fragments it numbers. */
  lemma FillKeepsTx(wnd: int, mss: int, tx: Tx, cwnd: int, current: int, rto: int, peer: Rcv)
    requires SndWndOk(wnd) && 0 <= cwnd <= wnd && TxInv(wnd, mss, tx) && Retained(tx.snd.buf, |tx.log|, peer)
    ensures var m := MoveCount(Wide, tx.snd, cwnd);
      var tx' := NumberFrags(tx, Fill(Wide, tx.snd, cwnd, current, rto), m);
      TxInv(wnd, mss, tx') && Retained(tx'.snd.buf, |tx'.log|, peer)
  {
    hide TxHistory, AllLogged, Retained, SegsOk;
    var m := MoveCount(Wide, tx.snd, cwnd);
    FillKeepsInv(Wide, wnd, tx.snd, cwnd, current, rto);
    FillIsFifo(Wide, tx.snd, cwnd, current, rto);
    FillLogged(tx, cwnd, current, rto);
    FillRetains(tx, cwnd, current, rto, peer);
    NumberHistory(mss, tx, Fill(Wide, tx.snd, cwnd, current, rto), m);
  }

  /** ikcp_write: what was accepted is appended to the history, and to nothing else. */
  function WriteTx(mss: int, stream: bool, tx: Tx, data: seq<byte>): Tx
    requires mss > 0
  {
    var w := Enqueue(mss, stream, tx.snd.que, data);
    if w.ret != 0 then tx
    else
      tx.(snd := tx.snd.(que := w.que), written := tx.written + data,
          said := tx.said + [data], whole := tx.whole && !stream)
  }

  lemma WriteKeepsHistory(mss: int, stream: bool, tx: Tx, data: seq<byte>)
    requires mss > 0 && TxHistory(mss, tx) && WellCut(mss, tx.snd.que)
    ensures TxHistory(mss, WriteTx(mss, stream, tx, data))
  {
    hide Join, WellCut, Cut, CutStream, CountOf, Extend;
    EnqueueBehind(mss, stream, tx.log, tx.snd.que, data);
    WriteAppends(mss, stream, tx.snd.que, data);
    assert Join(tx.log) + Join(tx.snd.que) + data == Join(tx.log) + (Join(tx.snd.que) + data);
    if !stream {
      MessageAdded(mss, tx.log + tx.snd.que, data);
      assert tx.log + tx.snd.que + Cut(mss, data) == tx.log + (tx.snd.que + Cut(mss, data));
    }
  }

  lemma MessageAdded(mss: int, fs: seq<Frag>, data: seq<byte>)
    requires mss > 0 && WellCut(mss, fs)
    ensures Messages(fs + Cut(mss, data)) == Messages(fs) + [data]
  {
    MessagesAppend([], fs, Cut(mss, data));
    CutIsOneMessage([], mss, data);
    assert [] + data == data;
  }
}
