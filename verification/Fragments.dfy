/**
 ikcp_write: cutting user data into fragments, and reading messages back out of
 a run of fragments.
 */
module Fragments {
  import opened SerialArith
  import opened Sender

  /** IKCP_WND_RCV: a message must have fewer fragments than this. */
  const FRAG_LIMIT: int := 128

  /** Full fragments of mss bytes and a last one with the rest; empty data gives one empty fragment. */
  function CountOf(mss: int, len: int): int
    requires mss > 0
  {
    if len <= mss then 1 else (len + mss - 1) / mss
  }

  /** The fragments of one message: frg counts down to 0. */
  function Cut(mss: int, data: seq<byte>): (fs: seq<Frag>)
    requires mss > 0
    ensures fs != []
    decreases |data|
  {
    if |data| <= mss then [Frag(0, data)]
    else
      var rest := Cut(mss, data[mss..]);
      [Frag(|rest|, data[..mss])] + rest
  }

  /** The fragments of stream data: every one ends a record. */
  function CutStream(mss: int, data: seq<byte>): seq<Frag>
    requires mss > 0
    decreases |data|
  {
    if |data| <= mss then [Frag(0, data)]
    else [Frag(0, data[..mss])] + CutStream(mss, data[mss..])
  }

  /** Room left in the last queued fragment, which stream data may use. */
  function Spare(mss: int, que: seq<Frag>): int {
    if que != [] && |que[|que| - 1].data| < mss then mss - |que[|que| - 1].data| else 0
  }

  function Extend(que: seq<Frag>, data: seq<byte>): seq<Frag>
    requires que != []
  {
    que[..|que| - 1] + [Frag(0, que[|que| - 1].data + data)]
  }

  datatype EnqueueResult = EnqueueResult(que: seq<Frag>, ret: int)

  /** ikcp_write on a non-negative length. */
  function Enqueue(mss: int, stream: bool, que: seq<Frag>, data: seq<byte>): EnqueueResult
    requires mss > 0
  {
    if stream then
      var spare := Spare(mss, que);
      var head := data[..Min(|data|, spare)];
      var rest := data[|head|..];
      var que' := if spare > 0 then Extend(que, head) else que;
      EnqueueResult(if rest == [] then que' else que' + CutStream(mss, rest), 0)
    else if CountOf(mss, |data|) >= FRAG_LIMIT then EnqueueResult(que, -2)
    else EnqueueResult(que + Cut(mss, data), 0)
  }

  // ---------------------------------------------------------------------
  // Reading back
  // ---------------------------------------------------------------------

  function Join(fs: seq<Frag>): seq<byte> {
    if fs == [] then [] else fs[0].data + Join(fs[1..])
  }

  /** The complete messages at the front of a run: each ends at frg == 0. */
  function Messages(fs: seq<Frag>): seq<seq<byte>> {
    MessagesFrom([], fs)
  }

  function MessagesFrom(part: seq<byte>, fs: seq<Frag>): seq<seq<byte>>
    decreases |fs|
  {
    if fs == [] then []
    else if fs[0].frg == 0 then [part + fs[0].data] + MessagesFrom([], fs[1..])
    else MessagesFrom(part + fs[0].data, fs[1..])
  }

  /**
   A run cut by ikcp_write: fragments fit mss, frg stays below the limit, steps
   down by one inside a message, and the run ends at the end of a message.
   */
  ghost predicate WellCut(mss: int, fs: seq<Frag>) {
    && (forall i :: 0 <= i < |fs| ==> |fs[i].data| <= mss && 0 <= fs[i].frg < FRAG_LIMIT - 1)
    && (forall i :: 0 <= i < |fs| - 1 && fs[i].frg > 0 ==> fs[i + 1].frg == fs[i].frg - 1)
    && (fs != [] ==> fs[|fs| - 1].frg == 0)
  }

  lemma {:induction false} CutCount(mss: int, data: seq<byte>)
    requires mss > 0
    ensures |Cut(mss, data)| == CountOf(mss, |data|)
    decreases |data|
  {
    if |data| > mss {
      CutCount(mss, data[mss..]);
      var len := |data|;
      assert (len + mss - 1) / mss == (len - mss + mss - 1) / mss + 1 by {
        DivStep(len - 1, mss);
      }
      if len - mss <= mss {
        DivOne(len - 1, mss);
      }
    }
  }

  /** Stream mode cuts as many fragments as message mode. */
  lemma {:induction false} StreamCount(mss: int, data: seq<byte>)
    requires mss > 0
    ensures |CutStream(mss, data)| == CountOf(mss, |data|)
    decreases |data|
  {
    CutCount(mss, data);
    if |data| > mss {
      StreamCount(mss, data[mss..]);
      CutCount(mss, data[mss..]);
    }
  }

  lemma DivStep(x: int, m: int)
    requires m > 0
    ensures (x + m) / m == x / m + 1
  {
    var q, t := x / m, x % m;
    assert x + m == m * (q + 1) + t;
    DivUnique(x + m, m, q + 1, t);
  }

  lemma DivOne(x: int, m: int)
    requires m > 0 && m <= x < 2 * m
    ensures x / m == 1
  {
    DivUnique(x, m, 1, x - m);
  }

  lemma DivUnique(x: int, m: int, q: int, t: int)
    requires m > 0 && x == m * q + t && 0 <= t < m
    ensures x / m == q
  {
    DivAtLeast(x, m, q);
    DivAtLeast(x, m, q + 1);
    assert m * (q + 1) == m * q + m;
  }

  lemma DivAtLeast(x: int, m: int, q: int)
    requires m > 0
    ensures x / m >= q <==> x >= m * q
  {
    var c, t := x / m, x % m;
    assert x == m * c + t;
    if c >= q {
      MulMonotone(m, q, c);
    } else {
      MulMonotone(m, c + 1, q);
      assert m * (c + 1) == m * c + m;
    }
  }

  lemma MulMonotone(m: int, a: int, b: int)
    requires m >= 0 && a <= b
    ensures m * a <= m * b
  {
  }

  /** frg is exactly the number of fragments still to come. */
  lemma {:induction false} CutAt(mss: int, data: seq<byte>, i: nat)
    requires mss > 0 && i < |Cut(mss, data)|
    ensures var fs := Cut(mss, data);
      fs[i].frg == |fs| - 1 - i && |fs[i].data| <= mss
    decreases |data|
  {
    if |data| > mss && i > 0 {
      CutAt(mss, data[mss..], i - 1);
    }
  }

  lemma CutCountsDown(mss: int, data: seq<byte>)
    requires mss > 0
    ensures var fs := Cut(mss, data);
      forall i :: 0 <= i < |fs| ==> fs[i].frg == |fs| - 1 - i && |fs[i].data| <= mss
  {
    forall i | 0 <= i < |Cut(mss, data)|
      ensures Cut(mss, data)[i].frg == |Cut(mss, data)| - 1 - i && |Cut(mss, data)[i].data| <= mss
    {
      CutAt(mss, data, i);
    }
  }

  lemma {:induction false} JoinAppend(a: seq<Frag>, b: seq<Frag>)
    ensures Join(a + b) == Join(a) + Join(b)
  {
    if a == [] {
      assert a + b == b;
    } else {
      JoinAppend(a[1..], b);
      assert (a + b)[1..] == a[1..] + b;
      assert a[0].data + (Join(a[1..]) + Join(b)) == a[0].data + Join(a[1..]) + Join(b);
    }
  }

  lemma {:induction false} CutJoin(mss: int, data: seq<byte>)
    requires mss > 0
    ensures Join(Cut(mss, data)) == data
    decreases |data|
  {
    if |data| > mss {
      CutJoin(mss, data[mss..]);
      assert data[..mss] + data[mss..] == data;
    }
  }

  lemma {:induction false} CutStreamSpec(mss: int, data: seq<byte>)
    requires mss > 0
    ensures Join(CutStream(mss, data)) == data
    ensures WellCut(mss, CutStream(mss, data))
    ensures CutStream(mss, data) != []
    decreases |data|
  {
    if |data| > mss {
      CutStreamSpec(mss, data[mss..]);
      assert data[..mss] + data[mss..] == data;
    }
  }

  lemma WellCutAppend(mss: int, a: seq<Frag>, b: seq<Frag>)
    requires WellCut(mss, a) && WellCut(mss, b)
    ensures WellCut(mss, a + b)
  {
    var c := a + b;
    forall i | 0 <= i < |c| - 1 && c[i].frg > 0
      ensures c[i + 1].frg == c[i].frg - 1
    {
      if i < |a| {
        assert a[i].frg > 0;
      } else {
        assert b[i - |a|].frg > 0;
      }
    }
  }

  lemma ExtendSpec(mss: int, que: seq<Frag>, data: seq<byte>)
    requires WellCut(mss, que) && que != [] && |que[|que| - 1].data| + |data| <= mss
    ensures WellCut(mss, Extend(que, data))
    ensures Join(Extend(que, data)) == Join(que) + data
  {
    var n := |que| - 1;
    var last := que[n];
    JoinAppend(que[..n], [last]);
    JoinAppend(que[..n], [Frag(0, last.data + data)]);
    assert que == que[..n] + [last];
    assert Join([last]) == last.data + Join([]);
    assert Join([Frag(0, last.data + data)]) == last.data + data + Join([]);
    var que' := Extend(que, data);
    forall i | 0 <= i < |que'| - 1 && que'[i].frg > 0
      ensures que'[i + 1].frg == que'[i].frg - 1
    {
      assert que[i].frg > 0;
    }
  }

  lemma WriteStreamAppends(mss: int, que: seq<Frag>, data: seq<byte>)
    requires mss > 0 && WellCut(mss, que)
    ensures var w := Enqueue(mss, true, que, data);
      w.ret == 0 && Join(w.que) == Join(que) + data && WellCut(mss, w.que)
  {
    hide Join, CutStream, WellCut, Extend;
    var spare := Spare(mss, que);
    var head := data[..Min(|data|, spare)];
    var que' := if spare > 0 then Extend(que, head) else que;
    if spare > 0 {
      ExtendSpec(mss, que, head);
    } else {
      assert Join(que) + [] == Join(que);
    }
    StreamTail(mss, que, que', head, data[|head|..]);
    assert head + data[|head|..] == data;
  }

  lemma StreamTail(mss: int, que: seq<Frag>, que': seq<Frag>, head: seq<byte>, rest: seq<byte>)
    requires mss > 0 && WellCut(mss, que') && Join(que') == Join(que) + head
    ensures var w := if rest == [] then que' else que' + CutStream(mss, rest);
      Join(w) == Join(que) + (head + rest) && WellCut(mss, w)
  {
    hide Join, CutStream, WellCut;
    assert Join(que) + head + rest == Join(que) + (head + rest);
    if rest == [] {
      assert Join(que) + head + [] == Join(que) + head;
    } else {
      CutStreamSpec(mss, rest);
      WellCutAppend(mss, que', CutStream(mss, rest));
      JoinAppend(que', CutStream(mss, rest));
    }
  }

  /**
   ikcp_write appends exactly the given bytes, in fragments of at most mss
   bytes; a refused message changes nothing.
   */
  lemma WriteAppends(mss: int, stream: bool, que: seq<Frag>, data: seq<byte>)
    requires mss > 0 && WellCut(mss, que)
    ensures var w := Enqueue(mss, stream, que, data);
      && (w.ret == 0 || w.ret == -2)
      && (w.ret == 0 ==> Join(w.que) == Join(que) + data)
      && (w.ret == -2 ==> w.que == que)
      && (w.ret == -2 <==> !stream && CountOf(mss, |data|) >= FRAG_LIMIT)
      && WellCut(mss, w.que)
  {
    if stream {
      WriteStreamAppends(mss, que, data);
    } else if CountOf(mss, |data|) < FRAG_LIMIT {
      CutIsWellCut(mss, data);
      CutJoin(mss, data);
      WellCutAppend(mss, que, Cut(mss, data));
      JoinAppend(que, Cut(mss, data));
    }
  }

  lemma CutIsWellCut(mss: int, data: seq<byte>)
    requires mss > 0 && CountOf(mss, |data|) < FRAG_LIMIT
    ensures WellCut(mss, Cut(mss, data))
  {
    CutCount(mss, data);
    CutCountsDown(mss, data);
  }

  /** The refusal in bytes: 127 full fragments are the most one message can have. */
  lemma RefusedExactly(mss: int, len: int)
    requires mss > 0 && len >= 0
    ensures CountOf(mss, len) >= FRAG_LIMIT <==> len > 127 * mss
  {
    if len > mss {
      DivAtLeast(len + mss - 1, mss, 128);
    }
  }

  /** Messages of a whole run of messages followed by more fragments. */
  lemma {:induction false} MessagesAppend(part: seq<byte>, a: seq<Frag>, b: seq<Frag>)
    requires a != [] ==> a[|a| - 1].frg == 0
    requires a == [] ==> part == []
    ensures MessagesFrom(part, a + b) == MessagesFrom(part, a) + MessagesFrom([], b)
    decreases |a|
  {
    if a == [] {
      assert a + b == b;
    } else {
      assert (a + b)[1..] == a[1..] + b;
      if a[0].frg == 0 {
        MessagesAppend([], a[1..], b);
      } else {
        MessagesAppend(part + a[0].data, a[1..], b);
      }
    }
  }

  lemma {:induction false} CutIsOneMessage(part: seq<byte>, mss: int, data: seq<byte>)
    requires mss > 0
    ensures MessagesFrom(part, Cut(mss, data)) == [part + data]
    decreases |data|
  {
    var fs := Cut(mss, data);
    if |data| > mss {
      CutIsOneMessage(part + data[..mss], mss, data[mss..]);
      assert part + data[..mss] + data[mss..] == part + data;
    } else {
      assert fs[1..] == [];
    }
  }

  /** Message mode appends exactly one message. */
  lemma WriteMessage(mss: int, que: seq<Frag>, data: seq<byte>)
    requires mss > 0 && WellCut(mss, que) && |data| <= 127 * mss
    ensures Enqueue(mss, false, que, data).ret == 0
    ensures Messages(Enqueue(mss, false, que, data).que) == Messages(que) + [data]
  {
    RefusedExactly(mss, |data|);
    MessagesAppend([], que, Cut(mss, data));
    CutIsOneMessage([], mss, data);
    assert [] + data == data;
  }

  lemma AppendBehind(mss: int, log: seq<Frag>, que: seq<Frag>, more: seq<Frag>)
    requires WellCut(mss, log + que) && WellCut(mss, more)
    ensures WellCut(mss, log + (que + more))
  {
    hide WellCut;
    WellCutAppend(mss, log + que, more);
    assert log + que + more == log + (que + more);
  }

  lemma ExtendBehind(mss: int, log: seq<Frag>, que: seq<Frag>, head: seq<byte>)
    requires que != [] && WellCut(mss, log + que) && |que[|que| - 1].data| + |head| <= mss
    ensures WellCut(mss, log + Extend(que, head))
  {
    hide WellCut, Join;
    assert log + Extend(que, head) == Extend(log + que, head);
    ExtendSpec(mss, log + que, head);
  }

  /** Behind fragments that have left the queue, ikcp_write still leaves a well-cut run. */
  lemma EnqueueBehind(mss: int, stream: bool, log: seq<Frag>, que: seq<Frag>, data: seq<byte>)
    requires mss > 0 && WellCut(mss, log + que)
    ensures WellCut(mss, log + Enqueue(mss, stream, que, data).que)
  {
    hide WellCut, Join, CutStream, Cut, CountOf, Extend;
    if stream {
      var spare := Spare(mss, que);
      var head := data[..Min(|data|, spare)];
      var que' := if spare > 0 then Extend(que, head) else que;
      if spare > 0 {
        ExtendBehind(mss, log, que, head);
      }
      CutStreamSpec(mss, data[|head|..]);
      AppendBehind(mss, log, que', CutStream(mss, data[|head|..]));
    } else if CountOf(mss, |data|) < FRAG_LIMIT {
      CutIsWellCut(mss, data);
      AppendBehind(mss, log, que, Cut(mss, data));
    }
  }
}
