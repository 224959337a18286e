/**
 The client's connection state, and each handler as a step over it. Times are
 in milliseconds.
 */
module ClientSteps {
  import opened SerialArith
  import opened Options
  import opened Envelope
  import opened ServerSteps

  const CLIENT_SYN_RETRIES: int := 30
  const PING_INTERVAL: int := 5000
  const MAX_RECONNECT_DELAY: int := 3000

  datatype State = CLOSED | PENDING | CONNECTED

  /** A connection attempt: how often and when the last SYN was sent. */
  datatype Attempt = Attempt(retries: int, sent: int)

  /** The session of a connected client. */
  datatype Live = Live(id: u32, closed: bool)

  datatype Client = Client(
    state: State, attempt: Option<Attempt>, live: Option<Live>,
    lastReceived: Option<int>, lastPing: Option<int>,
    socketOpen: bool, reconnect: bool, timerSet: bool, delay: int, times: nat)

  /** A client that has not connected yet. */
  function NewClient(reconnect: bool): Client {
    Client(CLOSED, None, None, None, None, false, reconnect, false, 0, 0)
  }

  /** BuildSession. */
  function Build(c: Client, now: int): (Client, set<Packet>) {
    if !c.socketOpen || c.state != CLOSED then (c, {})
    else (c.(attempt := Some(Attempt(0, now)), state := PENDING), {Packet(SYN_PACKET, 0)})
  }

  /** ResetSession: closes everything, and plans to come back if it may. */
  function Reset(c: Client): Client {
    var d := c.(attempt := None, live := None, state := CLOSED);
    if !c.socketOpen || !c.reconnect || c.timerSet then d
    else d.(times := c.times + 1, delay := Min((c.times + 1) * 500, MAX_RECONNECT_DELAY), timerSet := true)
  }

  /** Connect, once the socket is there. */
  function OnConnect(c: Client, now: int): (Client, set<Packet>) {
    Build(c.(socketOpen := true), now)
  }

  /** The reconnect timer fires. */
  function OnTimer(c: Client, now: int): (Client, set<Packet>) {
    if !c.timerSet then (c, {})
    else
      var (d, out) := Build(c, now);
      (d.(timerSet := false), out)
  }

  /** RunPeriodicTask. */
  function OnTick(c: Client, now: int): (Client, set<Packet>) {
    if c.state == PENDING && c.attempt.Some? then
      var a := c.attempt.value;
      if a.retries >= CLIENT_SYN_RETRIES then (Reset(c), {})
      else if now - a.sent >= SYN_TIMEOUT then
        (c.(attempt := Some(Attempt(a.retries + 1, now))), {Packet(SYN_PACKET, 0)})
      else (c, {})
    else if c.state == CONNECTED && c.live.Some? then
      if c.lastReceived.Some? && now - c.lastReceived.value >= IDLE_LIMIT then (Reset(c), {})
      else if c.live.value.closed then (Reset(c), {})
      else if c.lastPing.Some? && now - c.lastPing.value >= PING_INTERVAL then
        (c, {Packet(PING_PACKET, c.live.value.id)})
      else (c, {})
    else (c, {})
  }

  function OnSyn(c: Client, id: u32, now: int): (Client, set<Packet>) {
    if c.live.Some? then (c, {Packet(if c.live.value.id != id then RST_PACKET else ACK_PACKET, id)})
    else if c.attempt.None? then (c, {Packet(RST_PACKET, id)})
    else
      (c.(live := Some(Live(id, false)), attempt := None, lastPing := Some(now), state := CONNECTED),
       {Packet(ACK_PACKET, id)})
  }

  /** A PONG or DATA packet shows that the server is there. */
  function OnSign(c: Client, id: u32, now: int): (Client, set<Packet>) {
    if c.live.None? then (c, {Packet(RST_PACKET, id)}) else (c.(lastReceived := Some(now)), {})
  }

  function OnPacket(c: Client, p: Packet, now: int): (Client, set<Packet>) {
    if p.kind == SYN_PACKET then OnSyn(c, p.id, now)
    else if p.kind == RST_PACKET then (Reset(c), {})
    else if p.kind == PONG_PACKET || p.kind == DATA_PACKET then OnSign(c, p.id, now)
    else (c, {})
  }

  /** Disconnect: says goodbye when connected, and never comes back. */
  function OnDisconnect(c: Client): (Client, set<Packet>) {
    (c.(state := CLOSED, attempt := None, live := None, timerSet := false, socketOpen := false),
     if c.state == CONNECTED && c.live.Some? then {Packet(RST_PACKET, c.live.value.id)} else {})
  }

  /** The user sends data on a live session. */
  function OnSend(c: Client): (Client, set<Packet>) {
    (c, if c.live.Some? then {Packet(DATA_PACKET, c.live.value.id)} else {})
  }

  datatype Event =
    | Connects
    | TimerFires
    | Ticks
    | Receives(packet: Packet)
    | SessionCloses
    | Sends
    | Disconnects

  function Step(c: Client, e: Event, now: int): (Client, set<Packet>) {
    match e
    case Connects => OnConnect(c, now)
    case TimerFires => OnTimer(c, now)
    case Ticks => OnTick(c, now)
    case Receives(p) => if c.socketOpen then OnPacket(c, p, now) else (c, {})
    case SessionCloses => (if c.live.Some? then c.(live := Some(c.live.value.(closed := true))) else c, {})
    case Sends => OnSend(c)
    case Disconnects => OnDisconnect(c)
  }

  /** The state says which of the two objects exists, and a client that may come back has a timer for it. */
  ghost predicate ClientOk(c: Client) {
    && (c.state == PENDING <==> c.attempt.Some?)
    && (c.state == CONNECTED <==> c.live.Some?)
    && (c.attempt.Some? ==> 0 <= c.attempt.value.retries <= CLIENT_SYN_RETRIES)
    && (c.timerSet ==> c.socketOpen && 500 <= c.delay <= MAX_RECONNECT_DELAY)
    && (c.state != CLOSED ==> c.socketOpen)
    && (c.socketOpen && c.reconnect && c.state == CLOSED ==> c.timerSet)
  }

  /**
   Whatever happens, the state and the two session objects agree, no attempt
   is retried more than thirty times, and a client that may reconnect is never
   left closed without a timer.
   */
  lemma StepKeepsClient(c: Client, e: Event, now: int)
    requires ClientOk(c)
    ensures ClientOk(Step(c, e, now).0)
    ensures Step(c, e, now).0.reconnect == c.reconnect
  {
  }

  /** The only way into CONNECTED is a SYN from the server in PENDING, and the session takes its id. */
  lemma OnlySynConnects(c: Client, e: Event, now: int)
    requires ClientOk(c)
    ensures var d := Step(c, e, now).0;
      d.state == CONNECTED && (c.state != CONNECTED || d.live.value.id != c.live.value.id) ==>
        && c.state == PENDING && e.Receives? && e.packet.kind == SYN_PACKET
        && d.live.value.id == e.packet.id
        && Step(c, e, now).1 == {Packet(ACK_PACKET, e.packet.id)}
  {
  }

  /**
   The time of the last packet outlives the session it belongs to: a client
   that has just connected again is closed by its next periodic task exactly
   when that time is two minutes or more ago.
   */
  lemma OldReceiptCloses(c: Client, id: u32, now: int, later: int)
    requires ClientOk(c) && c.state == PENDING
    ensures var d := OnSyn(c, id, now).0;
      && d.state == CONNECTED
      && (OnTick(d, later).0.state == CLOSED <==> c.lastReceived.Some? && later - c.lastReceived.value >= IDLE_LIMIT)
  {
  }

  // ---------------------------------------------------------------------
  // A run in which that happens
  // ---------------------------------------------------------------------

  /** An event and the time it happens. */
  datatype At = At(now: int, event: Event)

  function Run(c: Client, es: seq<At>): Client
    decreases |es|
  {
    if es == [] then c else Run(Step(c, es[0].event, es[0].now).0, es[1..])
  }

  lemma {:induction false} RunKeepsClient(c: Client, es: seq<At>)
    requires ClientOk(c)
    ensures ClientOk(Run(c, es)) && Run(c, es).reconnect == c.reconnect
    decreases |es|
  {
    hide ClientOk, Step;
    if es != [] {
      StepKeepsClient(c, es[0].event, es[0].now);
      RunKeepsClient(Step(c, es[0].event, es[0].now).0, es[1..]);
    }
  }

  lemma {:induction false} RunAppend(c: Client, a: seq<At>, b: seq<At>)
    ensures Run(c, a + b) == Run(Run(c, a), b)
    decreases |a|
  {
    hide Step;
    if a == [] {
      assert a + b == b;
    } else {
      assert (a + b)[1..] == a[1..] + b;
      RunAppend(Step(c, a[0].event, a[0].now).0, a[1..], b);
    }
  }

  /** The periodic task at the given times. */
  function TicksAt(times: seq<int>): (es: seq<At>)
    ensures |es| == |times|
  {
    seq(|times|, i requires 0 <= i < |times| => At(times[i], Event.Ticks))
  }

  /** On an open session that has heard from the server in time the task changes nothing. */
  lemma {:induction false} QuietTicks(c: Client, times: seq<int>)
    requires c.state == CONNECTED && c.live.Some? && !c.live.value.closed
    requires c.lastReceived.Some? && forall i :: 0 <= i < |times| ==> times[i] - c.lastReceived.value < IDLE_LIMIT
    ensures Run(c, TicksAt(times)) == c
    decreases |times|
  {
    if times != [] {
      assert TicksAt(times)[1..] == TicksAt(times[1..]);
      QuietTicks(c, times[1..]);
    }
  }

  /** Connected, and heard from the server once. */
  const FIRST_VISIT: seq<At> := [
    At(0, Connects), At(100, Receives(Packet(SYN_PACKET, 7))), At(200, Receives(Packet(PONG_PACKET, 7)))]

  /** The task runs every two seconds. */
  const EVERY_TWO_SECONDS: seq<int> := seq(59, (i: int) => 2000 + 2000 * i)

  /** Then the server stays silent, the session is given up, and the next one is opened. */
  const SECOND_VISIT: seq<At> := [
    At(120000, Event.Ticks), At(122000, Event.Ticks), At(122500, TimerFires), At(122600, Receives(Packet(SYN_PACKET, 8)))]

  /** A session less than two seconds old, with a server that answers, is given up by the next periodic task. */
  lemma NewSessionIsGivenUp()
    ensures var c := Run(NewClient(true), FIRST_VISIT + TicksAt(EVERY_TWO_SECONDS) + SECOND_VISIT);
      && c.state == CONNECTED && c.live == Some(Live(8, false)) && c.lastPing == Some(122600)
      && OnTick(c, 124000).0.state == CLOSED
  {
    hide Step;
    var c1 := Client(CONNECTED, None, Some(Live(7, false)), Some(200), Some(100), true, true, false, 0, 0);
    var c2 := Client(CONNECTED, None, Some(Live(8, false)), Some(200), Some(122600), true, true, false, 500, 1);
    FirstVisit(c1);
    QuietTicks(c1, EVERY_TWO_SECONDS);
    SecondVisit(c1, c2);
    RunAppend(NewClient(true), FIRST_VISIT + TicksAt(EVERY_TWO_SECONDS), SECOND_VISIT);
    RunAppend(NewClient(true), FIRST_VISIT, TicksAt(EVERY_TWO_SECONDS));
  }

  lemma FirstVisit(c1: Client)
    requires c1 == Client(CONNECTED, None, Some(Live(7, false)), Some(200), Some(100), true, true, false, 0, 0)
    ensures Run(NewClient(true), FIRST_VISIT) == c1
  {
    var es := FIRST_VISIT;
    var a := Step(NewClient(true), es[0].event, 0).0;
    var b := Step(a, es[1].event, 100).0;
    assert Step(b, es[2].event, 200).0 == c1;
    assert es[1..][1..] == es[2..] && es[2..][1..] == [];
    assert Run(c1, []) == c1;
    assert Run(b, es[2..]) == c1;
    assert Run(a, es[1..]) == c1;
  }

  lemma SecondVisit(c1: Client, c2: Client)
    requires c1 == Client(CONNECTED, None, Some(Live(7, false)), Some(200), Some(100), true, true, false, 0, 0)
    requires c2 == Client(CONNECTED, None, Some(Live(8, false)), Some(200), Some(122600), true, true, false, 500, 1)
    ensures Run(c1, SECOND_VISIT) == c2
  {
    var es := SECOND_VISIT;
    var b := Step(c1, es[1].event, 122000).0;
    var d := Step(b, es[2].event, 122500).0;
    assert Step(c1, es[0].event, 120000).0 == c1;
    assert Step(d, es[3].event, 122600).0 == c2;
    assert es[1..][1..] == es[2..] && es[2..][1..] == es[3..] && es[3..][1..] == [];
    assert Run(c2, []) == c2;
    assert Run(d, es[3..]) == c2;
    assert Run(b, es[2..]) == c2;
    assert Run(c1, es[1..]) == c2;
  }
}
