/**
 How long a session stays in the server's table: from its opening until it is
 reset, or until a periodic task finds it closed or without a sign of life for
 two minutes.
 */
module KeepAlive {
  import opened SerialArith
  import opened Options
  import opened Envelope
  import opened ServerSteps

  predicate Pings(e: Timed, id: u32) {
    e.event.Arrives? && e.event.packet == Packet(PING_PACKET, id)
  }

  predicate Resets(e: Timed, id: u32) {
    e.event.Arrives? && e.event.packet == Packet(RST_PACKET, id)
  }

  /** The tables after the first m events. */
  function At(es: seq<Timed>, m: nat): Tables
    requires m <= |es|
  {
    Run(EMPTY, es[..m])
  }

  lemma AtNext(es: seq<Timed>, m: nat)
    requires m < |es|
    ensures At(es, m + 1) == Step(At(es, m), es[m]).0 && TablesOk(At(es, m))
  {
    hide Step, TablesOk;
    RunKeepsTables(EMPTY, es[..m]) by { NothingYet(); }
    RunAppend(EMPTY, es[..m], [es[m]]);
    assert es[..m + 1] == es[..m] + [es[m]];
    assert [es[m]][1..] == [];
    assert Run(At(es, m), [es[m]]) == Run(Step(At(es, m), es[m]).0, []);
  }

  lemma NothingYet()
    ensures TablesOk(EMPTY)
  {
  }

  /** What one event does to a session: a PING renews it, an opening dates it, and nothing else does either. */
  lemma StepDates(t: Tables, e: Timed, id: u32)
    requires TablesOk(t) && id in Step(t, e).0.sessions
    ensures id in Step(t, e).0.idle
    ensures Step(t, e).0.idle[id] == if id in t.sessions && !Pings(e, id) then t.idle[id] else e.now
    ensures Pings(e, id) ==> id in t.sessions
    ensures Step(t, e).0.sessions[id].closed <==>
      id in t.sessions && (t.sessions[id].closed || e.event == Closes(id))
    ensures id in t.sessions ==> Step(t, e).0.sessions[id].opener == t.sessions[id].opener
  {
    hide FirstFree;
  }

  /** A session leaves in one step exactly by a reset, or when the periodic task finds it closed or silent for too long. */
  lemma LeavesExactly(t: Tables, e: Timed, id: u32)
    requires TablesOk(t) && id in t.sessions
    ensures id in t.idle
    ensures id !in Step(t, e).0.sessions <==>
      Resets(e, id) || (e.event.Ticks? && (t.sessions[id].closed || e.now - t.idle[id] >= IDLE_LIMIT))
  {
    hide FirstFree;
  }

  // ---------------------------------------------------------------------
  // Over runs
  // ---------------------------------------------------------------------

  /** The event opened the session, which has been there ever since. */
  predicate OpenedBy(es: seq<Timed>, id: u32, o: nat) {
    && o < |es| && id !in At(es, o).sessions
    && forall m :: o < m <= |es| ==> id in At(es, m).sessions
  }

  /** The event is the last PING for the session, or its opening when there was none. */
  predicate LastSign(es: seq<Timed>, id: u32, o: nat, j: nat) {
    && o <= j < |es| && (j == o || Pings(es[j], id))
    && forall m :: j < m < |es| ==> !Pings(es[m], id)
  }

  lemma AtPrefix(es: seq<Timed>, n: nat, m: nat)
    requires m <= n <= |es|
    ensures At(es[..n], m) == At(es, m)
  {
    assert es[..n][..m] == es[..m];
  }

  /**
   A session in the table after any run from the empty tables: it was opened by
   one of the events and has stayed since; its idle time is the time of its last
   PING, or of its opening when there was none; and it is closed exactly when it
   has been closed since.
   */
  lemma {:induction false} SessionHistory(es: seq<Timed>, id: u32) returns (o: nat, j: nat)
    requires id in Run(EMPTY, es).sessions
    ensures OpenedBy(es, id, o) && LastSign(es, id, o, j)
    ensures id in Run(EMPTY, es).idle && Run(EMPTY, es).idle[id] == es[j].now
    ensures Run(EMPTY, es).sessions[id].closed <==> exists m :: o < m < |es| && es[m].event == Closes(id)
    decreases |es|
  {
    hide Step, TablesOk;
    assert es[..|es|] == es;
    if es == [] {
      assert false;
    }
    var n := |es| - 1;
    var e, t := es[n], At(es, n);
    AtNext(es, n);
    StepDates(t, e, id);
    forall m | 0 <= m <= n
      ensures At(es[..n], m) == At(es, m)
    {
      AtPrefix(es, n, m);
    }
    if id in t.sessions {
      o, j := SessionHistory(es[..n], id);
      assert forall m :: 0 <= m < n ==> es[..n][m] == es[m];
      if Pings(e, id) {
        j := n;
      }
    } else {
      o, j := n, n;
    }
  }

  /** The history is the only one of its kind. */
  lemma HistoryIsUnique(es: seq<Timed>, id: u32, o: nat, j: nat, o': nat, j': nat)
    requires OpenedBy(es, id, o) && LastSign(es, id, o, j) && OpenedBy(es, id, o') && LastSign(es, id, o', j')
    ensures o == o' && j == j'
  {
    hide At;
    AtOpening(es, id, o);
  }

  lemma AtOpening(es: seq<Timed>, id: u32, o: nat)
    requires OpenedBy(es, id, o)
    ensures !Pings(es[o], id)
  {
    hide Step, TablesOk, At;
    AtNext(es, o);
    StepDates(At(es, o), es[o], id);
  }

  /**
   In any run: a session leaves with the next event exactly when that is a reset
   for its id, or a periodic task and the session has been closed or its last
   PING, or its opening, is 120 seconds or more ago.
   */
  lemma RemovedExactly(es: seq<Timed>, e: Timed, id: u32, o: nat, j: nat)
    requires id in Run(EMPTY, es).sessions && OpenedBy(es, id, o) && LastSign(es, id, o, j)
    ensures id !in Run(EMPTY, es + [e]).sessions <==>
      || Resets(e, id)
      || (e.event.Ticks? && ((exists m :: o < m < |es| && es[m].event == Closes(id)) || e.now - es[j].now >= 120000))
  {
    hide Step, TablesOk, OpenedBy, LastSign, Run;
    var o', j' := SessionHistory(es, id);
    HistoryIsUnique(es, id, o, j, o', j');
    var all := es + [e];
    AtNext(all, |es|);
    assert all[..|es|] == es && all[..|all|] == all;
    LeavesExactly(Run(EMPTY, es), e, id);
  }

  /** Every periodic task of the run comes less than 120 seconds after the last PING, or after the time given. */
  predicate InTime(last: int, es: seq<Timed>, id: u32)
    decreases |es|
  {
    es == []
    || ((es[0].event.Ticks? ==> es[0].now - last < 120000)
        && InTime(if Pings(es[0], id) then es[0].now else last, es[1..], id))
  }

  /** A session that is not reset and not closed, and whose client keeps pinging, stays, whatever else happens. */
  lemma {:induction false} PingingStays(t: Tables, es: seq<Timed>, id: u32)
    requires TablesOk(t) && id in t.sessions && !t.sessions[id].closed && id in t.idle
    requires forall i :: 0 <= i < |es| ==> !Resets(es[i], id) && es[i].event != Closes(id)
    requires InTime(t.idle[id], es, id)
    ensures var t' := Run(t, es);
      id in t'.sessions && !t'.sessions[id].closed && t'.sessions[id].opener == t.sessions[id].opener
    decreases |es|
  {
    hide Step, TablesOk;
    if es != [] {
      LeavesExactly(t, es[0], id);
      StepDates(t, es[0], id);
      StepKeepsTables(t, es[0]);
      assert forall i :: 0 <= i < |es| - 1 ==> es[1..][i] == es[i + 1];
      PingingStays(Step(t, es[0]).0, es[1..], id);
    }
  }

  // ---------------------------------------------------------------------
  // What the server answers
  // ---------------------------------------------------------------------

  /**
   A client of a session in the table is never reset by what it sends: a PING
   gets a PONG, data and repeated acknowledgements get nothing.
   */
  lemma LiveIsServed(t: Tables, addr: Addr, p: Packet, draws: Draws, now: int)
    requires p.id in t.sessions
    ensures var out := Step(t, Timed(now, Arrives(addr, p, draws))).1;
      && (p.kind == PING_PACKET ==> out == {Out(addr, Packet(PONG_PACKET, p.id))})
      && (p.kind == DATA_PACKET ==> out == {})
      && (p.kind == ACK_PACKET && addr !in t.pending ==> out == {})
  {
    hide FirstFree;
  }

  /** A client of a session that has gone is told so, whatever it sends, and opens nothing. */
  lemma GoneIsReset(t: Tables, addr: Addr, p: Packet, draws: Draws, now: int)
    requires p.id !in t.sessions && addr !in t.pending
    requires p.kind == PING_PACKET || p.kind == DATA_PACKET || p.kind == ACK_PACKET
    ensures var (t', out) := Step(t, Timed(now, Arrives(addr, p, draws)));
      && t' == t
      && exists o :: o in out && out == {o} && o.to == addr && o.packet.kind == RST_PACKET
  {
    hide FirstFree;
    var o := Out(addr, Packet(RST_PACKET, if p.kind == PING_PACKET then p.id else 0));
    assert Step(t, Timed(now, Arrives(addr, p, draws))).1 == {o};
  }

  /** A SYN is answered by the SYN of the entry it leaves, or reset when it leaves none. */
  lemma SynIsAnswered(t: Tables, addr: Addr, id: u32, draws: Draws, now: int)
    ensures var (t', out) := Step(t, Timed(now, Arrives(addr, Packet(SYN_PACKET, id), draws)));
      && (addr in t'.pending ==> out == {Out(addr, Packet(SYN_PACKET, t'.pending[addr].id))})
      && (addr !in t'.pending ==> out == {Out(addr, Packet(RST_PACKET, 0))})
      && (addr !in t'.pending <==>
            if addr in t.pending then t.pending[addr].retries >= 10
            else forall i :: 0 <= i < |draws| ==> !Free(t, draws[i]))
  {
    FirstFreeSpec(t, draws);
  }

  /** An acknowledgement is reset exactly when it names neither the id its sender was offered nor, with no offer open, a session. */
  lemma AckIsReset(t: Tables, addr: Addr, id: u32, draws: Draws, now: int)
    ensures var (t', out) := Step(t, Timed(now, Arrives(addr, Packet(ACK_PACKET, id), draws)));
      && (if (addr in t.pending && t.pending[addr].id != id) || (addr !in t.pending && id !in t.sessions)
          then out == {Out(addr, Packet(RST_PACKET, 0))} && t' == t
          else out == {} && id in t'.sessions)
  {
    hide FirstFree;
  }

  /** Data is handed to the session it names exactly when there is one, or its sender is connecting; otherwise it is reset. */
  lemma DataIsHanded(t: Tables, addr: Addr, id: u32, draws: Draws, now: int)
    ensures var p := Packet(DATA_PACKET, id);
      var (t', out) := Step(t, Timed(now, Arrives(addr, p, draws)));
      && HandedTo(t', p) == (if id in t.sessions || addr in t.pending then Some(id) else None)
      && out == (if HandedTo(t', p).Some? then {} else {Out(addr, Packet(RST_PACKET, 0))})
      && (HandedTo(t', p).Some? ==> id in t'.sessions)
  {
    hide FirstFree;
  }

  // ---------------------------------------------------------------------
  // Time-wait
  // ---------------------------------------------------------------------

  /** The event took the session out of the table. */
  predicate LeftBy(es: seq<Timed>, id: u32, m: nat) {
    m < |es| && id in At(es, m).sessions && id !in At(es, m + 1).sessions
  }

  /** What one event does to an id in time-wait: it comes in when its session leaves, and goes two minutes later. */
  lemma WaitStep(t: Tables, e: Timed, id: u32)
    requires TablesOk(t)
    ensures var t' := Step(t, e).0;
      && (id in t.timeWait ==>
            && (id !in t'.timeWait <==> e.event.Ticks? && e.now - t.timeWait[id] >= 120000)
            && (id in t'.timeWait ==> t'.timeWait[id] == t.timeWait[id]))
      && (id !in t.timeWait ==>
            && (id in t'.timeWait <==> id in t.sessions && id !in t'.sessions)
            && (id in t'.timeWait ==> t'.timeWait[id] == e.now))
  {
    hide FirstFree;
  }

  /** An id in time-wait after any run: a session of that id left at the time it keeps. */
  lemma {:induction false} WaitHistory(es: seq<Timed>, id: u32) returns (m: nat)
    requires id in Run(EMPTY, es).timeWait
    ensures LeftBy(es, id, m) && Run(EMPTY, es).timeWait[id] == es[m].now
    decreases |es|
  {
    hide Step, TablesOk;
    assert es[..|es|] == es;
    if es == [] {
      assert false;
    }
    var n := |es| - 1;
    AtNext(es, n);
    WaitStep(At(es, n), es[n], id);
    if id in At(es, n).timeWait {
      m := WaitHistory(es[..n], id);
      AtPrefix(es, n, m);
      AtPrefix(es, n, m + 1);
      assert es[..n][m] == es[m];
    } else {
      m := n;
    }
  }

  // ---------------------------------------------------------------------
  // Entries of clients that are connecting
  // ---------------------------------------------------------------------

  /** The event sends the SYN of the entry to its address. */
  predicate SendsSyn(es: seq<Timed>, m: nat, addr: Addr, id: u32) {
    m < |es| && Out(addr, Packet(SYN_PACKET, id)) in Step(At(es, m), es[m]).1
  }

  /** How many of the events from one up to another send the SYN of the entry. */
  function SynCount(es: seq<Timed>, addr: Addr, id: u32, first: nat, last: nat): (n: nat)
    requires first <= last
  {
    if first == last then 0
    else SynCount(es, addr, id, first, last - 1) + if SendsSyn(es, last - 1, addr, id) then 1 else 0
  }

  /** The event made the entry, which has been there ever since. */
  predicate EnteredBy(es: seq<Timed>, addr: Addr, o: nat) {
    && o < |es| && addr !in At(es, o).pending
    && forall m :: o < m <= |es| ==> addr in At(es, m).pending
  }

  predicate LastSyn(es: seq<Timed>, addr: Addr, id: u32, o: nat, j: nat) {
    && o <= j < |es| && SendsSyn(es, j, addr, id)
    && forall m :: j < m < |es| ==> !SendsSyn(es, m, addr, id)
  }

  predicate From(e: Timed, addr: Addr, kind: byte) {
    e.event.Arrives? && e.event.addr == addr && e.event.packet.kind == kind
  }

  /** What one event does to an entry: it goes, it is sent once more and counts it, or it stays. */
  lemma EntryStep(t: Tables, e: Timed, addr: Addr)
    requires TablesOk(t)
    ensures var (t', out) := Step(t, e);
      && (addr in t.pending && addr in t'.pending ==>
            var p, syn := t.pending[addr], Out(addr, Packet(SYN_PACKET, t.pending[addr].id)) in out;
            && t'.pending[addr] == (if syn then p.(retries := p.retries + 1, sent := e.now) else p)
            && (syn <==> From(e, addr, SYN_PACKET) || (e.event.Ticks? && e.now - p.sent >= 2000)))
      && (addr in t.pending ==> (addr !in t'.pending <==>
            || From(e, addr, RST_PACKET)
            || (From(e, addr, ACK_PACKET) && e.event.packet.id == t.pending[addr].id && e.event.packet.id !in t.sessions)
            || (From(e, addr, DATA_PACKET) && e.event.packet.id !in t.sessions)
            || ((From(e, addr, SYN_PACKET) || e.event.Ticks?) && t.pending[addr].retries == 10)))
      && (addr !in t.pending && addr in t'.pending ==>
            && From(e, addr, SYN_PACKET)
            && t'.pending[addr] == Pending(t'.pending[addr].id, 0, e.now, e.now)
            && out == {Out(addr, Packet(SYN_PACKET, t'.pending[addr].id))})
  {
    hide FirstFree;
  }

  lemma SynPrefix(es: seq<Timed>, n: nat, m: nat, addr: Addr, id: u32)
    requires m < n <= |es|
    ensures SendsSyn(es[..n], m, addr, id) == SendsSyn(es, m, addr, id)
  {
    hide Step;
    AtPrefix(es, n, m);
  }

  lemma {:induction false} CountPrefix(es: seq<Timed>, n: nat, addr: Addr, id: u32, first: nat, last: nat)
    requires first <= last <= n <= |es|
    ensures SynCount(es[..n], addr, id, first, last) == SynCount(es, addr, id, first, last)
    decreases last
  {
    hide SendsSyn;
    if first < last {
      CountPrefix(es, n, addr, id, first, last - 1);
      SynPrefix(es, n, last - 1, addr, id);
    }
  }

  /**
   An entry in the table after any run: one SYN to its client came with it, and
   every retry is one SYN more with the same id, the last at the time it keeps.
   */
  lemma {:induction false} EntryHistory(es: seq<Timed>, addr: Addr) returns (o: nat, j: nat)
    requires addr in Run(EMPTY, es).pending
    ensures EnteredBy(es, addr, o)
    ensures var p := Run(EMPTY, es).pending[addr];
      && LastSyn(es, addr, p.id, o, j)
      && p.retries == SynCount(es, addr, p.id, o, |es|) - 1 && p.sent == es[j].now && p.received == es[o].now
    decreases |es|
  {
    hide Step, TablesOk;
    assert es[..|es|] == es;
    if es == [] {
      assert false;
    }
    var n := |es| - 1;
    var t := At(es, n);
    AtNext(es, n);
    EntryStep(t, es[n], addr);
    var id := Run(EMPTY, es).pending[addr].id;
    forall m | 0 <= m <= n
      ensures At(es[..n], m) == At(es, m)
      ensures m < n ==> SendsSyn(es[..n], m, addr, id) == SendsSyn(es, m, addr, id)
    {
      AtPrefix(es, n, m);
      if m < n {
        SynPrefix(es, n, m, addr, id);
      }
    }
    if addr in t.pending {
      o, j := EntryHistory(es[..n], addr);
      CountPrefix(es, n, addr, id, o, n);
      assert es[..n][j] == es[j] && es[..n][o] == es[o];
      if SendsSyn(es, n, addr, id) {
        j := n;
      }
    } else {
      o, j := n, n;
      assert SynCount(es, addr, id, n, n) == 0;
    }
  }
}
