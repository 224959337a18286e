/**
 The client's object: its handlers change the connection state in place.
 */
module Client {
  import opened SerialArith
  import opened Options
  import opened Envelope
  import opened ServerSteps
  import Steps = ClientSteps
  import opened ClientSteps

  class KCPClient {
    var state: State
    var pendingSession: Option<Attempt>
    var session: Option<Live>
    var lastReceived: Option<int>
    var lastPing: Option<int>
    var socketOpen: bool
    const reconnectEnabled: bool
    var reconnectTimerRegistered: bool
    var retryDelay: int
    var reconnectTimes: nat

    /** Every packet sent so far. */
    var outbox: set<Packet>

    ghost function View(): Steps.Client
      reads this
    {
      Steps.Client(state, pendingSession, session, lastReceived, lastPing, socketOpen, reconnectEnabled,
                   reconnectTimerRegistered, retryDelay, reconnectTimes)
    }

    ghost predicate Valid()
      reads this
    {
      ClientOk(View())
    }

    twostate predicate Did(result: (Steps.Client, set<Packet>))
      reads this
    {
      Valid() && View() == result.0 && outbox == old(outbox) + result.1
    }

    constructor (reconnectEnabled: bool)
      ensures Valid() && View() == NewClient(reconnectEnabled) && outbox == {}
    {
      state, pendingSession, session, lastReceived, lastPing := CLOSED, None, None, None, None;
      socketOpen, reconnectTimerRegistered, retryDelay, reconnectTimes := false, false, 0, 0;
      this.reconnectEnabled := reconnectEnabled;
      outbox := {};
    }

    method SendPacket(kind: byte, id: u32)
      modifies `outbox
      ensures outbox == old(outbox) + {Packet(kind, id)}
    {
      outbox := outbox + {Packet(kind, id)};
    }

    method Connect(now: int)
      requires Valid()
      modifies this
      ensures Did(OnConnect(old(View()), now))
      ensures socketOpen && state != CLOSED
    {
      StepKeepsClient(View(), Connects, now);
      socketOpen := true;
      BuildSession(now);
    }

    method BuildSession(now: int)
      modifies this
      ensures View() == Build(old(View()), now).0 && outbox == old(outbox) + Build(old(View()), now).1
    {
      if !socketOpen {
        return;
      }
      if state == CLOSED {
        SendPacket(SYN_PACKET, 0);
        pendingSession := Some(Attempt(0, now));
        state := PENDING;
      }
    }

    method ResetSession()
      modifies this
      ensures View() == Reset(old(View())) && outbox == old(outbox)
      ensures state == CLOSED && pendingSession.None? && session.None?
      ensures socketOpen && reconnectEnabled ==> reconnectTimerRegistered
    {
      pendingSession, session, state := None, None, CLOSED;
      if !socketOpen {
        return;
      }
      if !reconnectEnabled {
        return;
      }
      if reconnectTimerRegistered {
        return;
      }
      reconnectTimes := reconnectTimes + 1;
      retryDelay := Min(reconnectTimes * 500, MAX_RECONNECT_DELAY);
      reconnectTimerRegistered := true;
    }

    /** The callback of the reconnect timer. */
    method HandleReconnectTimer(now: int)
      requires Valid() && reconnectTimerRegistered
      modifies this
      ensures Did(OnTimer(old(View()), now))
      ensures state != CLOSED && !reconnectTimerRegistered
    {
      BuildSession(now);
      reconnectTimerRegistered := false;
    }

    method RunPeriodicTask(now: int)
      requires Valid()
      modifies this
      ensures Did(Steps.OnTick(old(View()), now))
      ensures state == old(state) || state == CLOSED
      ensures session.Some? ==> session == old(session)
    {
      StepKeepsClient(View(), Steps.Ticks, now);
      if state == PENDING {
        if pendingSession.value.retries >= CLIENT_SYN_RETRIES {
          ResetSession();
          return;
        }
        if now - pendingSession.value.sent >= SYN_TIMEOUT {
          pendingSession := Some(Attempt(pendingSession.value.retries + 1, now));
          SendPacket(SYN_PACKET, 0);
          return;
        }
      } else if state == CONNECTED {
        if lastReceived.Some? && now - lastReceived.value >= IDLE_LIMIT {
          ResetSession();
        } else if session.value.closed {
          ResetSession();
        } else if lastPing.Some? && now - lastPing.value >= PING_INTERVAL {
          SendPacket(PING_PACKET, session.value.id);
        }
      }
    }

    method ProcessSynPacket(id: u32, now: int)
      requires Valid() && socketOpen
      modifies this
      ensures Did(Steps.OnSyn(old(View()), id, now))
      ensures state == if old(state) == CLOSED then CLOSED else CONNECTED
      ensures session.Some? ==> session.value.id == if old(session).Some? then old(session).value.id else id
    {
      StepKeepsClient(View(), Receives(Packet(SYN_PACKET, id)), now);
      if session.Some? {
        if session.value.id != id {
          SendPacket(RST_PACKET, id);
          return;
        }
        SendPacket(ACK_PACKET, id);
        return;
      }
      if pendingSession.None? {
        SendPacket(RST_PACKET, id);
        return;
      }
      session := Some(Live(id, false));
      pendingSession := None;
      lastPing := Some(now);
      state := CONNECTED;
      SendPacket(ACK_PACKET, id);
    }

    method ProcessRstPacket()
      requires Valid() && socketOpen
      modifies this
      ensures Did((Reset(old(View())), {}))
      ensures state == CLOSED
    {
      ResetSession();
    }

    method ProcessPongPacket(id: u32, now: int)
      requires Valid() && socketOpen
      modifies this
      ensures Did(OnSign(old(View()), id, now))
      ensures session == old(session)
    {
      if session.None? {
        SendPacket(RST_PACKET, id);
        return;
      }
      lastReceived := Some(now);
    }

    /** The packet goes to the session, whatever its id, when there is one. */
    method ProcessDataPacket(id: u32, now: int) returns (handed: bool)
      requires Valid() && socketOpen
      modifies this
      ensures Did(OnSign(old(View()), id, now))
      ensures session == old(session) && (handed <==> session.Some?)
    {
      if session.None? {
        SendPacket(RST_PACKET, id);
        return false;
      }
      lastReceived := Some(now);
      return true;
    }

    /** ProcessPacket, once the public header has been read; the socket is open. */
    method ProcessPacket(p: Packet, now: int) returns (handed: bool)
      requires Valid() && socketOpen
      modifies this
      ensures Did(Steps.OnPacket(old(View()), p, now))
      ensures handed <==> p.kind == DATA_PACKET && session.Some?
      ensures state == CONNECTED && old(state) != CONNECTED ==> p.kind == SYN_PACKET && session.value.id == p.id
    {
      hide Steps.OnSyn, Reset, OnSign;
      handed := false;
      if p.kind == SYN_PACKET {
        ProcessSynPacket(p.id, now);
      } else if p.kind == RST_PACKET {
        ProcessRstPacket();
      } else if p.kind == PONG_PACKET {
        ProcessPongPacket(p.id, now);
      } else if p.kind == DATA_PACKET {
        handed := ProcessDataPacket(p.id, now);
      }
    }

    method Disconnect()
      requires Valid()
      modifies this
      ensures Did(OnDisconnect(old(View())))
      ensures state == CLOSED && !socketOpen && !reconnectTimerRegistered
    {
      if state == PENDING {
        pendingSession := None;
      } else if state == CONNECTED {
        SendPacket(RST_PACKET, session.value.id);
        session := None;
      }
      reconnectTimerRegistered := false;
      socketOpen := false;
      state := CLOSED;
    }
  }
}
