/**
 One server and any number of clients over a network that loses, duplicates
 and reorders packets but makes none up.
 */
module Handshake {
  import opened SerialArith
  import opened Options
  import opened Envelope
  import opened ServerSteps
  import CS = ClientSteps

  /** A packet from a client. */
  datatype In = In(from: Addr, packet: Packet)

  /** issued records every id the server has ever given to an address. */
  datatype World = World(
    server: Tables, clients: map<Addr, CS.Client>, toServer: set<In>, toClients: set<Out>, issued: set<(Addr, u32)>)

  datatype Move =
    | ServerReceives(arrived: In, draws: Draws)
    | ServerTicks
    | ServerCloses(id: u32)
    | ServerSends(to: Addr, id: u32)
    | ClientDoes(addr: Addr, event: CS.Event)
    | ClientReceives(out: Out)

  datatype TimedMove = TimedMove(now: int, move: Move)

  function Sent(addr: Addr, ps: set<Packet>): set<In> {
    set p | p in ps :: In(addr, p)
  }

  /** The id a SYN from a new address makes the server issue. */
  function NewlyIssued(t: Tables, p: In, draws: Draws): set<(Addr, u32)> {
    if p.packet.kind == SYN_PACKET && p.from !in t.pending && FirstFree(t, draws).Some?
    then {(p.from, FirstFree(t, draws).value)}
    else {}
  }

  function ClientMoves(w: World, addr: Addr, e: CS.Event, now: int): World
    requires addr in w.clients
  {
    var (c, out) := CS.Step(w.clients[addr], e, now);
    w.(clients := w.clients[addr := c], toServer := w.toServer + Sent(addr, out))
  }

  /** Packets are only received if they have been sent; a move that is not possible changes nothing. */
  function Step(w: World, m: TimedMove): World {
    match m.move
    case ServerReceives(p, draws) =>
      if p !in w.toServer then w
      else
        var (t, out) := OnPacket(w.server, p.from, p.packet, m.now, FirstFree(w.server, draws));
        w.(server := t, toClients := w.toClients + out, issued := w.issued + NewlyIssued(w.server, p, draws))
    case ServerTicks =>
      var (t, out) := OnTick(w.server, m.now);
      w.(server := t, toClients := w.toClients + out)
    case ServerCloses(id) => w.(server := OnClose(w.server, id))
    case ServerSends(to, id) =>
      if id in w.server.sessions then w.(toClients := w.toClients + {Out(to, Packet(DATA_PACKET, id))}) else w
    case ClientDoes(addr, e) =>
      if addr in w.clients && !e.Receives? then ClientMoves(w, addr, e, m.now) else w
    case ClientReceives(p) =>
      if p in w.toClients && p.to in w.clients then ClientMoves(w, p.to, CS.Receives(p.packet), m.now) else w
  }

  function Run(w: World, ms: seq<TimedMove>): World
    decreases |ms|
  {
    if ms == [] then w else Run(Step(w, ms[0]), ms[1..])
  }

  function Start(reconnect: map<Addr, bool>): World {
    World(EMPTY, map a | a in reconnect :: CS.NewClient(reconnect[a]), {}, {}, {})
  }

  /** A packet that names a session names one issued to its sender. */
  predicate NamesOwn(issued: set<(Addr, u32)>, i: In) {
    (i.packet.kind == ACK_PACKET || i.packet.kind == PING_PACKET || i.packet.kind == DATA_PACKET)
    ==> (i.from, i.packet.id) in issued
  }

  ghost predicate ServerSide(w: World) {
    && TablesOk(w.server)
    && (forall a :: a in w.server.pending ==> (a, w.server.pending[a].id) in w.issued)
    && (forall id :: id in w.server.sessions ==> (w.server.sessions[id].opener, id) in w.issued)
    && (forall o :: o in w.toClients && o.packet.kind == SYN_PACKET ==> (o.to, o.packet.id) in w.issued)
  }

  ghost predicate ClientSide(w: World) {
    && (forall a :: a in w.clients ==> CS.ClientOk(w.clients[a]))
    && (forall a :: a in w.clients && w.clients[a].live.Some? ==> (a, w.clients[a].live.value.id) in w.issued)
    && (forall i :: i in w.toServer ==> NamesOwn(w.issued, i))
  }

  ghost predicate WorldOk(w: World) {
    ServerSide(w) && ClientSide(w)
  }

  // ---------------------------------------------------------------------
  // The server's moves
  // ---------------------------------------------------------------------

  /** What the server holds and sends after a packet was issued to the address it concerns. */
  lemma PacketIssued(t: Tables, issued: set<(Addr, u32)>, p: In, now: int, draws: Draws)
    requires NamesOwn(issued, p)
    requires forall a :: a in t.pending ==> (a, t.pending[a].id) in issued
    requires forall id :: id in t.sessions ==> (t.sessions[id].opener, id) in issued
    ensures var (t', out) := OnPacket(t, p.from, p.packet, now, FirstFree(t, draws));
      var more := issued + NewlyIssued(t, p, draws);
      && (forall a :: a in t'.pending ==> (a, t'.pending[a].id) in more)
      && (forall id :: id in t'.sessions ==> (t'.sessions[id].opener, id) in more)
      && (forall o :: o in out && o.packet.kind == SYN_PACKET ==> (o.to, o.packet.id) in more)
  {
  }

  lemma PacketKeepsWorld(w: World, p: In, now: int, draws: Draws)
    requires WorldOk(w) && p in w.toServer
    ensures WorldOk(Step(w, TimedMove(now, ServerReceives(p, draws))))
  {
    hide OnPacket, TablesOk, CS.ClientOk, NewlyIssued, FirstFree;
    PacketIssued(w.server, w.issued, p, now, draws);
    StepKeepsTables(w.server, Timed(now, Arrives(p.from, p.packet, draws)));
    MoreIssued(w, NewlyIssued(w.server, p, draws));
    var w' := Step(w, TimedMove(now, ServerReceives(p, draws)));
    var e := Timed(now, Arrives(p.from, p.packet, draws));
    assert ServerSteps.Step(w.server, e) == OnPacket(w.server, p.from, p.packet, now, FirstFree(w.server, draws));
  }

  /** Issuing more spoils nothing. */
  lemma MoreIssued(w: World, more: set<(Addr, u32)>)
    requires ClientSide(w)
    ensures ClientSide(w.(issued := w.issued + more))
  {
    hide CS.ClientOk;
  }

  lemma TickKeepsWorld(w: World, now: int)
    requires WorldOk(w)
    ensures WorldOk(Step(w, TimedMove(now, ServerTicks)))
  {
    hide TablesOk, CS.ClientOk;
    StepKeepsTables(w.server, Timed(now, Ticks));
  }

  // ---------------------------------------------------------------------
  // The clients' moves
  // ---------------------------------------------------------------------

  /** What a client holds and sends names the session it had, or the one a SYN has just given it. */
  lemma ClientNames(c: CS.Client, addr: Addr, e: CS.Event, now: int, issued: set<(Addr, u32)>)
    requires CS.ClientOk(c)
    requires c.live.Some? ==> (addr, c.live.value.id) in issued
    requires e.Receives? && e.packet.kind == SYN_PACKET ==> (addr, e.packet.id) in issued
    ensures var (c', out) := CS.Step(c, e, now);
      && CS.ClientOk(c')
      && (c'.live.Some? ==> (addr, c'.live.value.id) in issued)
      && (forall p :: p in out ==> NamesOwn(issued, In(addr, p)))
  {
    CS.StepKeepsClient(c, e, now);
  }

  lemma ClientKeepsWorld(w: World, addr: Addr, e: CS.Event, now: int)
    requires WorldOk(w) && addr in w.clients
    requires e.Receives? && e.packet.kind == SYN_PACKET ==> (addr, e.packet.id) in w.issued
    ensures WorldOk(ClientMoves(w, addr, e, now))
  {
    hide TablesOk, CS.ClientOk, CS.Step, NamesOwn;
    ClientNames(w.clients[addr], addr, e, now, w.issued);
  }

  lemma StepKeepsWorld(w: World, m: TimedMove)
    requires WorldOk(w)
    ensures WorldOk(Step(w, m))
  {
    hide TablesOk, CS.ClientOk, ClientMoves, OnPacket, OnTick, NamesOwn;
    match m.move
    case ServerReceives(p, draws) =>
      if p in w.toServer {
        PacketKeepsWorld(w, p, m.now, draws);
      }
    case ServerTicks => TickKeepsWorld(w, m.now);
    case ServerCloses(id) => StepKeepsTables(w.server, Timed(m.now, Closes(id)));
    case ServerSends(_, _) =>
    case ClientDoes(addr, e) =>
      if addr in w.clients && !e.Receives? {
        ClientKeepsWorld(w, addr, e, m.now);
      }
    case ClientReceives(p) =>
      if p in w.toClients && p.to in w.clients {
        ClientKeepsWorld(w, p.to, CS.Receives(p.packet), m.now);
      }
  }

  lemma {:induction false} RunKeepsWorld(w: World, ms: seq<TimedMove>)
    requires WorldOk(w)
    ensures WorldOk(Run(w, ms))
    decreases |ms|
  {
    hide WorldOk, Step;
    if ms != [] {
      StepKeepsWorld(w, ms[0]);
      RunKeepsWorld(Step(w, ms[0]), ms[1..]);
    }
  }

  /**
   In every run over a network that makes nothing up: a connected client uses
   an id that the server issued to that client's own address, every session of
   the server has an id issued to the address that opened it, and exactly the
   live sessions have an idle time.
   */
  lemma EveryRunIsIssued(reconnect: map<Addr, bool>, ms: seq<TimedMove>)
    ensures var w := Run(Start(reconnect), ms);
      && (forall a :: a in w.clients && w.clients[a].state == CS.CONNECTED ==>
            w.clients[a].live.Some? && (a, w.clients[a].live.value.id) in w.issued)
      && (forall id :: id in w.server.sessions ==> (w.server.sessions[id].opener, id) in w.issued)
      && w.server.idle.Keys == w.server.sessions.Keys
      && (forall a :: a in w.server.pending ==> w.server.pending[a].retries <= MAX_SYN_RETRIES)
  {
    hide Run;
    RunKeepsWorld(Start(reconnect), ms);
  }

  // ---------------------------------------------------------------------
  // A handshake that nothing disturbs
  // ---------------------------------------------------------------------

  /** The moves of a client that connects, with an answer to each packet. */
  function Connecting(addr: Addr, id: u32, draws: Draws, now: int): seq<TimedMove> {
    [TimedMove(now, ClientDoes(addr, CS.Connects)),
     TimedMove(now, ServerReceives(In(addr, Packet(SYN_PACKET, 0)), draws)),
     TimedMove(now, ClientReceives(Out(addr, Packet(SYN_PACKET, id)))),
     TimedMove(now, ServerReceives(In(addr, Packet(ACK_PACKET, id)), []))]
  }

  /** What each of the four moves leaves behind. */
  lemma ConnectingSteps(w: World, addr: Addr, id: u32, draws: Draws, now: int)
    requires addr in w.clients && w.clients[addr].state == CS.CLOSED && w.clients[addr].live.None?
    requires addr !in w.server.pending && FirstFree(w.server, draws) == Some(id)
    requires id !in w.server.sessions && id !in w.server.idle
    ensures var ms := Connecting(addr, id, draws, now);
      var w1 := Step(w, ms[0]);
      var w2 := Step(w1, ms[1]);
      var w3 := Step(w2, ms[2]);
      var w4 := Step(w3, ms[3]);
      && addr in w4.clients && w4.clients[addr].state == CS.CONNECTED
      && w4.clients[addr].live == Some(CS.Live(id, false))
      && id in w4.server.sessions && w4.server.sessions[id] == Conn(addr, false)
      && id in w4.server.idle && w4.server.idle[id] == now && addr !in w4.server.pending
  {
    hide FirstFree, OnTick, CS.OnTick;
    var ms := Connecting(addr, id, draws, now);
    var w1 := Step(w, ms[0]);
    assert w1.clients[addr].state == CS.PENDING && w1.clients[addr].attempt.Some? && w1.clients[addr].socketOpen;
    assert In(addr, Packet(SYN_PACKET, 0)) in w1.toServer && w1.server == w.server;
    var w2 := Step(w1, ms[1]);
    assert w2.server.pending[addr] == Pending(id, 0, now, now) && w2.clients == w1.clients;
    assert Out(addr, Packet(SYN_PACKET, id)) in w2.toClients;
    var w3 := Step(w2, ms[2]);
    assert In(addr, Packet(ACK_PACKET, id)) in w3.toServer && w3.server == w2.server;
  }

  /**
   From every world that can be reached: a client that is closed and not pending
   at the server, whose packets arrive and are answered, is connected after one
   exchange, under the id the server drew, and the server has the session.
   */
  lemma HandshakeConnects(w: World, addr: Addr, id: u32, draws: Draws, now: int)
    requires WorldOk(w)
    requires addr in w.clients && w.clients[addr].state == CS.CLOSED
    requires addr !in w.server.pending && FirstFree(w.server, draws) == Some(id)
    ensures var w' := Run(w, Connecting(addr, id, draws, now));
      && addr in w'.clients && w'.clients[addr].state == CS.CONNECTED
      && w'.clients[addr].live == Some(CS.Live(id, false))
      && id in w'.server.sessions && w'.server.sessions[id] == Conn(addr, false)
      && id in w'.server.idle && w'.server.idle[id] == now && addr !in w'.server.pending
  {
    hide Step, FirstFree;
    FirstFreeSpec(w.server, draws);
    ConnectingSteps(w, addr, id, draws, now);
    FourMoves(w, Connecting(addr, id, draws, now));
  }

  lemma FourMoves(w: World, ms: seq<TimedMove>)
    requires |ms| == 4
    ensures Run(w, ms) == Step(Step(Step(Step(w, ms[0]), ms[1]), ms[2]), ms[3])
  {
    hide Step;
    assert ms[1..][1..] == ms[2..] && ms[2..][1..] == ms[3..] && ms[3..][1..] == [];
    var w1 := Step(w, ms[0]);
    var w2 := Step(w1, ms[1]);
    var w3 := Step(w2, ms[2]);
    assert Run(w1, ms[1..]) == Run(w2, ms[2..]);
    assert Run(w2, ms[2..]) == Run(w3, ms[3..]);
    assert Run(w3, ms[3..]) == Run(Step(w3, ms[3]), []);
  }

  /** A ping on a session that both ends have is answered, and keeps both of them. */
  lemma PingIsAnswered(w: World, addr: Addr, id: u32, now: int)
    requires WorldOk(w) && addr in w.clients && w.clients[addr].live.Some? && w.clients[addr].live.value.id == id
    requires id in w.server.sessions && In(addr, Packet(PING_PACKET, id)) in w.toServer
    ensures var pong := Out(addr, Packet(PONG_PACKET, id));
      var w1 := Step(w, TimedMove(now, ServerReceives(In(addr, Packet(PING_PACKET, id)), [])));
      var w2 := Step(w1, TimedMove(now, ClientReceives(pong)));
      && id in w1.server.sessions && id in w1.server.idle && w1.server.idle[id] == now
      && addr in w2.clients && w2.clients[addr].live == w.clients[addr].live
      && w2.clients[addr].lastReceived == Some(now)
  {
    hide FirstFree, OnTick, CS.OnTick;
  }
}
