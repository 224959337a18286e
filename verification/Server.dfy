/**
 The server's object: four maps that the handlers change in place.
 */
module Server {
  import opened SerialArith
  import opened Options
  import opened Envelope
  import opened ServerSteps

  /** The first loop with todo still to be looked at. */
  ghost predicate Retrying(all: map<Addr, Pending>, todo: set<Addr>, now: int, pending: map<Addr, Pending>,
                           before: set<Out>, after: set<Out>)
  {
    && todo <= all.Keys
    && (forall a :: a in pending <==> a in all && (a in todo || all[a].retries < MAX_SYN_RETRIES))
    && (forall a :: a in pending ==> pending[a] == if a in todo then all[a] else Retried(all[a], now))
    && after == before + set a | a in all && a !in todo && Retries(all[a], now) :: Out(a, Packet(SYN_PACKET, all[a].id))
  }

  lemma RetryStarts(all: map<Addr, Pending>, now: int, before: set<Out>)
    ensures Retrying(all, all.Keys, now, all, before, before)
  {
  }

  lemma RetryStep(all: map<Addr, Pending>, todo: set<Addr>, a: Addr, now: int, pending: map<Addr, Pending>,
                  before: set<Out>, after: set<Out>)
    requires Retrying(all, todo, now, pending, before, after) && a in todo
    ensures a in pending
    ensures var p := pending[a];
      if p.retries >= MAX_SYN_RETRIES then Retrying(all, todo - {a}, now, pending - {a}, before, after)
      else if now - p.sent >= SYN_TIMEOUT then
        Retrying(all, todo - {a}, now, pending[a := p.(retries := p.retries + 1, sent := now)], before,
                 after + {Out(a, Packet(SYN_PACKET, p.id))})
      else Retrying(all, todo - {a}, now, pending, before, after)
  {
    var syns := set x | x in all && x !in todo && Retries(all[x], now) :: Out(x, Packet(SYN_PACKET, all[x].id));
    var more := set x | x in all && x !in (todo - {a}) && Retries(all[x], now) :: Out(x, Packet(SYN_PACKET, all[x].id));
    var o := Out(a, Packet(SYN_PACKET, all[a].id));
    assert more == syns + if Retries(all[a], now) then {o} else {} by {
      forall x | x in all && x !in (todo - {a}) && Retries(all[x], now) && x != a
        ensures Out(x, Packet(SYN_PACKET, all[x].id)) in syns
      {
      }
    }
  }

  lemma RetryEnds(all: map<Addr, Pending>, now: int, pending: map<Addr, Pending>, before: set<Out>, after: set<Out>)
    requires Retrying(all, {}, now, pending, before, after)
    ensures pending == RetriedAll(all, now) && after == before + RetriedSyns(all, now)
  {
    assert RetriedSyns(all, now)
        == set a | a in all && a !in {} && Retries(all[a], now) :: Out(a, Packet(SYN_PACKET, all[a].id));
  }

  /** The second loop with todo still to be looked at. */
  ghost predicate Expiring(t: Tables, todo: set<u32>, now: int, sessions: map<u32, Conn>, idle: map<u32, int>,
                           timeWait: map<u32, int>)
  {
    var gone := Leaving(t, now) - todo;
    && todo <= t.sessions.Keys
    && sessions == t.sessions - gone && idle == t.idle - gone
    && timeWait == map id | id in t.timeWait.Keys + gone :: if id in t.timeWait then t.timeWait[id] else now
  }

  lemma ExpireStarts(t: Tables, now: int)
    ensures Expiring(t, t.sessions.Keys, now, t.sessions, t.idle, t.timeWait)
  {
    assert Leaving(t, now) - t.sessions.Keys == {};
  }

  lemma ExpireStep(t: Tables, todo: set<u32>, id: u32, now: int, sessions: map<u32, Conn>, idle: map<u32, int>,
                   timeWait: map<u32, int>)
    requires Expiring(t, todo, now, sessions, idle, timeWait) && id in todo
    ensures id in sessions && (id in idle <==> id in t.idle)
    ensures var leaves := id !in idle || now - idle[id] >= IDLE_LIMIT || sessions[id].closed;
      if leaves then Expiring(t, todo - {id}, now, sessions - {id}, idle - {id}, Inserted(timeWait, id, now))
      else Expiring(t, todo - {id}, now, sessions, idle, timeWait)
    ensures id !in idle ==> idle - {id} == idle
  {
    var gone, more := Leaving(t, now) - todo, Leaving(t, now) - (todo - {id});
    assert more == gone + if Leaves(t, id, now) then {id} else {};
  }

  lemma ExpireEnds(t: Tables, now: int, sessions: map<u32, Conn>, idle: map<u32, int>, timeWait: map<u32, int>)
    requires Expiring(t, {}, now, sessions, idle, timeWait)
    ensures sessions == t.sessions - Leaving(t, now) && idle == t.idle - Leaving(t, now) && timeWait == Waiting(t, now)
  {
    assert Leaving(t, now) - {} == Leaving(t, now);
  }

  /** Who leaves does not depend on the pending table. */
  lemma SameLeaving(a: Tables, b: Tables, now: int)
    requires b == a.(pending := b.pending)
    ensures Leaving(a, now) == Leaving(b, now) && Waiting(a, now) == Waiting(b, now)
  {
  }

  class KCPServer {
    var pending: map<Addr, Pending>
    var sessions: map<u32, Conn>
    var idle: map<u32, int>
    var timeWait: map<u32, int>

    /** Every packet sent so far; the network may lose and repeat any of them. */
    var outbox: set<Out>

    ghost function View(): Tables
      reads this
    {
      Tables(pending, sessions, idle, timeWait)
    }

    /** The step made the change it should, and sent what it should. */
    twostate predicate Did(result: (Tables, set<Out>))
      reads this
    {
      View() == result.0 && outbox == old(outbox) + result.1
    }

    constructor ()
      ensures View() == EMPTY && outbox == {}
    {
      pending, sessions, idle, timeWait := map[], map[], map[], map[];
      outbox := {};
    }

    method SendPacket(kind: byte, id: u32, addr: Addr)
      modifies `outbox
      ensures outbox == old(outbox) + {Out(addr, Packet(kind, id))}
    {
      outbox := outbox + {Out(addr, Packet(kind, id))};
    }

    /** GenerateSessionId: at most twenty tries. */
    method GenerateSessionId(draws: Draws) returns (id: Option<u32>)
      requires |draws| == MAX_ID_TRIES
      ensures id == FirstFree(View(), draws)
    {
      assert draws[0..] == draws;
      for i := 0 to MAX_ID_TRIES
        invariant FirstFree(View(), draws) == FirstFree(View(), draws[i..])
      {
        assert draws[i..][1..] == draws[i + 1..];
        if draws[i].None? {
          continue;
        }
        if draws[i].value in sessions {
          continue;
        }
        if draws[i].value in timeWait {
          continue;
        }
        return draws[i];
      }
      return None;
    }

    method ProcessSynPacket(addr: Addr, now: int, draws: Draws)
      requires |draws| == MAX_ID_TRIES
      modifies this
      ensures Did(OnSyn(old(View()), addr, now, FirstFree(old(View()), draws)))
    {
      hide FirstFree;
      var id: u32 := 0;
      if addr in pending {
        var p := pending[addr];
        if p.retries >= MAX_SYN_RETRIES {
          SendPacket(RST_PACKET, 0, addr);
          pending := pending - {addr};
          return;
        }
        pending := pending[addr := p.(retries := p.retries + 1, sent := now)];
        id := p.id;
      } else {
        var drawn := GenerateSessionId(draws);
        if drawn.None? {
          SendPacket(RST_PACKET, 0, addr);
          return;
        }
        id := drawn.value;
        pending := pending[addr := Pending(id, 0, now, now)];
      }
      SendPacket(SYN_PACKET, id, addr);
    }

    method ProcessPingPacket(addr: Addr, id: u32, now: int)
      modifies this
      ensures Did(OnPing(old(View()), addr, id, now))
    {
      if id !in sessions {
        SendPacket(RST_PACKET, id, addr);
        return;
      }
      idle := idle[id := now];
      SendPacket(PONG_PACKET, id, addr);
    }

    method ProcessAckPacket(addr: Addr, id: u32, now: int)
      modifies this
      ensures Did(OnAck(old(View()), addr, id, now))
    {
      if addr !in pending {
        if id !in sessions {
          SendPacket(RST_PACKET, 0, addr);
        }
        return;
      }
      if id != pending[addr].id {
        SendPacket(RST_PACKET, 0, addr);
        return;
      }
      if id in sessions {
        return;
      }
      sessions := sessions[id := Conn(addr, false)];
      pending := pending - {addr};
      if id !in idle {
        idle := idle[id := now];
      }
    }

    method ProcessRstPacket(addr: Addr, id: u32, now: int)
      modifies this
      ensures Did((OnRst(old(View()), addr, id, now), {}))
    {
      pending := pending - {addr};
      if id in sessions {
        sessions := sessions - {id};
        if id !in timeWait {
          timeWait := timeWait[id := now];
        }
      }
      assert sessions == old(sessions) - {id};
      idle := idle - {id};
    }

    /** The packet goes to the session of its id, which it may open. */
    method ProcessDataPacket(addr: Addr, id: u32, now: int) returns (handed: Option<u32>)
      modifies this
      ensures Did(OnData(old(View()), addr, id, now))
      ensures handed == HandedTo(View(), Packet(DATA_PACKET, id))
      ensures handed.Some? <==> id in old(sessions) || addr in old(pending)
    {
      if id !in sessions {
        if addr !in pending {
          SendPacket(RST_PACKET, 0, addr);
          return None;
        }
        sessions := sessions[id := Conn(addr, false)];
        pending := pending - {addr};
        if id !in idle {
          idle := idle[id := now];
        }
      }
      return Some(id);
    }

    /** ProcessPacket, once the public header has been read. */
    method ProcessPacket(addr: Addr, p: Packet, now: int, draws: Draws) returns (handed: Option<u32>)
      requires |draws| == MAX_ID_TRIES
      modifies this
      ensures Did(OnPacket(old(View()), addr, p, now, FirstFree(old(View()), draws)))
      ensures handed == HandedTo(View(), p)
    {
      hide OnSyn, OnAck, OnRst, OnPing, OnData, FirstFree;
      handed := None;
      if p.kind == SYN_PACKET {
        ProcessSynPacket(addr, now, draws);
      } else if p.kind == ACK_PACKET {
        ProcessAckPacket(addr, p.id, now);
      } else if p.kind == RST_PACKET {
        ProcessRstPacket(addr, p.id, now);
      } else if p.kind == PING_PACKET {
        ProcessPingPacket(addr, p.id, now);
      } else if p.kind == DATA_PACKET {
        handed := ProcessDataPacket(addr, p.id, now);
      }
    }

    /** The first loop of RunPeriodicTask. */
    method RetryPending(now: int)
      modifies `pending, `outbox
      ensures pending == RetriedAll(old(pending), now)
      ensures outbox == old(outbox) + RetriedSyns(old(pending), now)
    {
      hide Retrying, RetriedSyns, RetriedAll;
      ghost var all := pending;
      var todo := pending.Keys;
      RetryStarts(all, now, outbox);
      while todo != {}
        invariant Retrying(all, todo, now, pending, old(outbox), outbox)
        decreases |todo|
      {
        var a :| a in todo;
        RetryStep(all, todo, a, now, pending, old(outbox), outbox);
        var p := pending[a];
        if p.retries >= MAX_SYN_RETRIES {
          pending := pending - {a};
        } else if now - p.sent >= SYN_TIMEOUT {
          pending := pending[a := p.(retries := p.retries + 1, sent := now)];
          SendPacket(SYN_PACKET, p.id, a);
        }
        todo := todo - {a};
      }
      RetryEnds(all, now, pending, old(outbox), outbox);
    }

    /** One turn of the second loop. */
    method ExpireOne(id: u32, now: int, ghost t: Tables, ghost todo: set<u32>)
      requires id in todo && Expiring(t, todo, now, sessions, idle, timeWait)
      modifies `sessions, `idle, `timeWait
      ensures Expiring(t, todo - {id}, now, sessions, idle, timeWait)
    {
      hide Expiring, Inserted;
      ExpireStep(t, todo, id, now, sessions, idle, timeWait);
      if id !in idle {
        sessions := sessions - {id};
        timeWait := Inserted(timeWait, id, now);
      } else if now - idle[id] >= IDLE_LIMIT || sessions[id].closed {
        sessions := sessions - {id};
        idle := idle - {id};
        timeWait := Inserted(timeWait, id, now);
      }
    }

    /** The second loop: sessions without an idle time, idle for too long, or closed. */
    method ExpireSessions(now: int)
      modifies `sessions, `idle, `timeWait
      ensures sessions == old(sessions) - Leaving(old(View()), now)
      ensures idle == old(idle) - Leaving(old(View()), now)
      ensures timeWait == Waiting(old(View()), now)
    {
      hide Expiring, Inserted, Leaving, Waiting;
      ghost var t := View();
      var todo := sessions.Keys;
      ExpireStarts(t, now);
      while todo != {}
        invariant Expiring(t, todo, now, sessions, idle, timeWait)
        decreases |todo|
      {
        var id :| id in todo;
        ExpireOne(id, now, t, todo);
        todo := todo - {id};
      }
      ExpireEnds(t, now, sessions, idle, timeWait);
    }

    /** The third loop. */
    method ForgetOld(now: int)
      modifies `timeWait
      ensures timeWait == StillWaiting(old(timeWait), now)
    {
      var todo := timeWait.Keys;
      while todo != {}
        invariant todo <= old(timeWait).Keys
        invariant forall x :: x in timeWait <==> x in old(timeWait) && (x in todo || now - old(timeWait)[x] < TIME_WAIT_LIMIT)
        invariant forall x :: x in timeWait ==> timeWait[x] == old(timeWait)[x]
        decreases |todo|
      {
        var id :| id in todo;
        if now - timeWait[id] >= TIME_WAIT_LIMIT {
          timeWait := timeWait - {id};
        }
        todo := todo - {id};
      }
    }

    method RunPeriodicTask(now: int)
      modifies this
      ensures Did(OnTick(old(View()), now))
    {
      hide RetriedAll, RetriedSyns, StillWaiting;
      RetryPending(now);
      ghost var t := View();
      ExpireSessions(now);
      SameLeaving(old(View()), t, now);
      ForgetOld(now);
    }
  }
}
