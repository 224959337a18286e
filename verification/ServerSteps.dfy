/**
 The connection tables of the server, and each handler as a step over them.
 Times are in milliseconds.
 */
module ServerSteps {
  import opened SerialArith
  import opened Options
  import opened Envelope

  const MAX_SYN_RETRIES: int := 10
  const SYN_TIMEOUT: int := 2000
  const IDLE_LIMIT: int := 120000
  const TIME_WAIT_LIMIT: int := 120000
  const MAX_ID_TRIES: int := 20

  /** The textual address of a client, ip and port. */
  type Addr = string

  datatype Packet = Packet(kind: byte, id: u32)

  /** A packet to a client. */
  datatype Out = Out(to: Addr, packet: Packet)

  datatype Pending = Pending(id: u32, retries: int, received: int, sent: int)

  /** A session of the server: who opened it, and whether it has closed itself. */
  datatype Conn = Conn(opener: Addr, closed: bool)

  datatype Tables = Tables(
    pending: map<Addr, Pending>, sessions: map<u32, Conn>, idle: map<u32, int>, timeWait: map<u32, int>)

  const EMPTY := Tables(map[], map[], map[], map[])

  /** std::unordered_map::insert: an entry that is there stays. */
  function Inserted<K, V>(m: map<K, V>, k: K, v: V): map<K, V> {
    if k in m then m else m[k := v]
  }

  // ---------------------------------------------------------------------
  // Session ids
  // ---------------------------------------------------------------------

  /** What the random source gave: nothing when it failed. */
  type Draws = seq<Option<u32>>

  predicate Free(t: Tables, d: Option<u32>) {
    d.Some? && d.value !in t.sessions && d.value !in t.timeWait
  }

  /** The first usable id among the draws. */
  function FirstFree(t: Tables, draws: Draws): Option<u32> {
    if draws == [] then None else if Free(t, draws[0]) then draws[0] else FirstFree(t, draws[1..])
  }

  /** An id that is issued is neither live nor in time-wait, and one is issued unless all draws fail. */
  lemma {:induction false} FirstFreeSpec(t: Tables, draws: Draws)
    ensures FirstFree(t, draws).Some? ==> Free(t, FirstFree(t, draws)) && FirstFree(t, draws) in draws
    ensures FirstFree(t, draws).None? <==> forall i :: 0 <= i < |draws| ==> !Free(t, draws[i])
  {
    if draws != [] && !Free(t, draws[0]) {
      FirstFreeSpec(t, draws[1..]);
    }
  }

  // ---------------------------------------------------------------------
  // Packets
  // ---------------------------------------------------------------------

  /** ProcessSynPacket; id is what GenerateSessionId would give. */
  function OnSyn(t: Tables, addr: Addr, now: int, id: Option<u32>): (Tables, set<Out>) {
    if addr in t.pending then
      var p := t.pending[addr];
      if p.retries >= MAX_SYN_RETRIES then
        (t.(pending := t.pending - {addr}), {Out(addr, Packet(RST_PACKET, 0))})
      else
        (t.(pending := t.pending[addr := p.(retries := p.retries + 1, sent := now)]),
         {Out(addr, Packet(SYN_PACKET, p.id))})
    else if id.None? then (t, {Out(addr, Packet(RST_PACKET, 0))})
    else
      (t.(pending := t.pending[addr := Pending(id.value, 0, now, now)]), {Out(addr, Packet(SYN_PACKET, id.value))})
  }

  /** A pending connection becomes a session. */
  function Opened(t: Tables, addr: Addr, id: u32, now: int): Tables {
    t.(pending := t.pending - {addr}, sessions := t.sessions[id := Conn(addr, false)],
       idle := Inserted(t.idle, id, now))
  }

  function OnAck(t: Tables, addr: Addr, id: u32, now: int): (Tables, set<Out>) {
    if addr !in t.pending then (t, if id in t.sessions then {} else {Out(addr, Packet(RST_PACKET, 0))})
    else if id != t.pending[addr].id then (t, {Out(addr, Packet(RST_PACKET, 0))})
    else if id in t.sessions then (t, {})
    else (Opened(t, addr, id, now), {})
  }

  function OnRst(t: Tables, addr: Addr, id: u32, now: int): Tables {
    Tables(t.pending - {addr}, t.sessions - {id}, t.idle - {id},
           if id in t.sessions then Inserted(t.timeWait, id, now) else t.timeWait)
  }

  function OnPing(t: Tables, addr: Addr, id: u32, now: int): (Tables, set<Out>) {
    if id !in t.sessions then (t, {Out(addr, Packet(RST_PACKET, id))})
    else (t.(idle := t.idle[id := now]), {Out(addr, Packet(PONG_PACKET, id))})
  }

  /** A data packet can open a session too, under the id in its own header. */
  function OnData(t: Tables, addr: Addr, id: u32, now: int): (Tables, set<Out>) {
    if id in t.sessions then (t, {})
    else if addr !in t.pending then (t, {Out(addr, Packet(RST_PACKET, 0))})
    else (Opened(t, addr, id, now), {})
  }

  function OnPacket(t: Tables, addr: Addr, p: Packet, now: int, id: Option<u32>): (Tables, set<Out>) {
    if p.kind == SYN_PACKET then OnSyn(t, addr, now, id)
    else if p.kind == ACK_PACKET then OnAck(t, addr, p.id, now)
    else if p.kind == RST_PACKET then (OnRst(t, addr, p.id, now), {})
    else if p.kind == PING_PACKET then OnPing(t, addr, p.id, now)
    else if p.kind == DATA_PACKET then OnData(t, addr, p.id, now)
    else (t, {})
  }

  /** The session that gets the packet: for data, the one of its id, when there is one by then. */
  function HandedTo(after: Tables, p: Packet): Option<u32> {
    if p.kind == DATA_PACKET && p.id in after.sessions then Some(p.id) else None
  }

  // ---------------------------------------------------------------------
  // The periodic task
  // ---------------------------------------------------------------------

  predicate Retries(p: Pending, now: int) {
    p.retries < MAX_SYN_RETRIES && now - p.sent >= SYN_TIMEOUT
  }

  function Retried(p: Pending, now: int): Pending {
    if Retries(p, now) then p.(retries := p.retries + 1, sent := now) else p
  }

  /** No idle entry, idle for too long, or closed. */
  predicate Leaves(t: Tables, id: u32, now: int)
    requires id in t.sessions
  {
    id !in t.idle || now - t.idle[id] >= IDLE_LIMIT || t.sessions[id].closed
  }

  function RetriedAll(pending: map<Addr, Pending>, now: int): map<Addr, Pending> {
    map a | a in pending && pending[a].retries < MAX_SYN_RETRIES :: Retried(pending[a], now)
  }

  function RetriedSyns(pending: map<Addr, Pending>, now: int): set<Out> {
    set a | a in pending && Retries(pending[a], now) :: Out(a, Packet(SYN_PACKET, pending[a].id))
  }

  function Leaving(t: Tables, now: int): set<u32> {
    set id | id in t.sessions && Leaves(t, id, now)
  }

  /** Those that leave go to time-wait, where an entry that is there stays. */
  function Waiting(t: Tables, now: int): map<u32, int> {
    map id | id in t.timeWait.Keys + Leaving(t, now) :: if id in t.timeWait then t.timeWait[id] else now
  }

  function StillWaiting(timeWait: map<u32, int>, now: int): map<u32, int> {
    map id | id in timeWait && now - timeWait[id] < TIME_WAIT_LIMIT :: timeWait[id]
  }

  /** RunPeriodicTask. */
  function OnTick(t: Tables, now: int): (Tables, set<Out>) {
    (Tables(RetriedAll(t.pending, now), t.sessions - Leaving(t, now), t.idle - Leaving(t, now),
            StillWaiting(Waiting(t, now), now)),
     RetriedSyns(t.pending, now))
  }

  // ---------------------------------------------------------------------
  // Runs
  // ---------------------------------------------------------------------

  datatype Event =
    | Arrives(addr: Addr, packet: Packet, draws: Draws)
    | Ticks
    | Closes(id: u32)

  datatype Timed = Timed(now: int, event: Event)

  /** A session closes itself: its user or its engine has given up. */
  function OnClose(t: Tables, id: u32): Tables {
    if id in t.sessions then t.(sessions := t.sessions[id := t.sessions[id].(closed := true)]) else t
  }

  function Step(t: Tables, e: Timed): (Tables, set<Out>) {
    match e.event
    case Arrives(addr, packet, draws) => OnPacket(t, addr, packet, e.now, FirstFree(t, draws))
    case Ticks => OnTick(t, e.now)
    case Closes(id) => (OnClose(t, id), {})
  }

  function Run(t: Tables, es: seq<Timed>): Tables
    decreases |es|
  {
    if es == [] then t else Run(Step(t, es[0]).0, es[1..])
  }

  ghost predicate TablesOk(t: Tables) {
    && t.idle.Keys == t.sessions.Keys
    && forall a :: a in t.pending ==> 0 <= t.pending[a].retries <= MAX_SYN_RETRIES
  }

  lemma TickKeepsTables(t: Tables, now: int)
    requires TablesOk(t)
    ensures TablesOk(OnTick(t, now).0)
  {
  }

  lemma StepKeepsTables(t: Tables, e: Timed)
    requires TablesOk(t)
    ensures TablesOk(Step(t, e).0)
  {
    hide OnTick;
    if e.event.Ticks? {
      TickKeepsTables(t, e.now);
    }
  }

  /**
   After any packets from anywhere, any ticks and any closings, at any times:
   exactly the live sessions have an idle time, and no pending entry has been
   retried more than ten times.
   */
  lemma {:induction false} RunKeepsTables(t: Tables, es: seq<Timed>)
    requires TablesOk(t)
    ensures TablesOk(Run(t, es))
    decreases |es|
  {
    hide TablesOk, Step;
    if es != [] {
      StepKeepsTables(t, es[0]);
      RunKeepsTables(Step(t, es[0]).0, es[1..]);
    }
  }

  // ---------------------------------------------------------------------
  // Leaving the session table
  // ---------------------------------------------------------------------

  /** A reset puts the session it removes into time-wait. */
  lemma ResetWaits(t: Tables, addr: Addr, id: u32, now: int)
    ensures var t' := OnRst(t, addr, id, now);
      forall x :: x in t.sessions && x !in t'.sessions ==> x in t'.timeWait
  {
  }

  /** The entry was left by an earlier session of the same id, and is over by now. */
  predicate StaleWait(t: Tables, id: u32, now: int) {
    id in t.timeWait && now - t.timeWait[id] >= TIME_WAIT_LIMIT
  }

  /**
   A session that leaves is in time-wait after the step, except exactly when
   the periodic task finds an old entry of the same id that has just run out.
   */
  lemma LeavingWaitsExactly(t: Tables, e: Timed, id: u32)
    requires TablesOk(t) && id in t.sessions && id !in Step(t, e).0.sessions
    ensures id in Step(t, e).0.timeWait <==> !(e.event.Ticks? && StaleWait(t, id, e.now))
  {
    match e.event
    case Arrives(addr, p, draws) => ResetWaits(t, addr, p.id, e.now);
    case _ =>
  }

  lemma {:induction false} RunAppend(t: Tables, a: seq<Timed>, b: seq<Timed>)
    ensures Run(t, a + b) == Run(Run(t, a), b)
    decreases |a|
  {
    hide Step;
    if a == [] {
      assert a + b == b;
    } else {
      assert (a + b)[1..] == a[1..] + b;
      RunAppend(Step(t, a[0]).0, a[1..], b);
    }
  }

  /** Ticks of the periodic task at the given times. */
  function TicksAt(times: seq<int>): (es: seq<Timed>)
    ensures |es| == |times|
  {
    seq(|times|, i requires 0 <= i < |times| => Timed(times[i], Ticks))
  }

  /** With nothing pending, no session and no entry that has run out, ticks change nothing. */
  lemma {:induction false} QuietTicks(t: Tables, times: seq<int>)
    requires t.pending == map[] && t.sessions == map[] && t.idle == map[]
    requires forall i, id :: 0 <= i < |times| && id in t.timeWait ==> times[i] - t.timeWait[id] < TIME_WAIT_LIMIT
    ensures Run(t, TicksAt(times)) == t
    decreases |times|
  {
    hide OnTick;
    if times != [] {
      QuietTick(t, times[0]);
      assert TicksAt(times)[1..] == TicksAt(times[1..]);
      QuietTicks(t, times[1..]);
    }
  }

  lemma QuietTick(t: Tables, now: int)
    requires t.pending == map[] && t.sessions == map[] && t.idle == map[]
    requires forall id :: id in t.timeWait ==> now - t.timeWait[id] < TIME_WAIT_LIMIT
    ensures OnTick(t, now).0 == t
  {
    assert Leaving(t, now) == {};
  }

  const ANNA: Addr := "10.0.0.1:4000"

  /** The server ticks every two seconds. */
  const EVERY_TWO_SECONDS: seq<int> := seq(59, (i: int) => 500 + 2000 * i)

  /** A session comes and goes, and its client comes back when its time-wait is almost over. */
  const FIRST_VISIT: seq<Timed> := [
    Timed(0, Arrives(ANNA, Packet(SYN_PACKET, 0), [Some(7)])),
    Timed(10, Arrives(ANNA, Packet(ACK_PACKET, 7), [])),
    Timed(500, Arrives(ANNA, Packet(RST_PACKET, 7), []))]

  const SECOND_VISIT: seq<Timed> := [
    Timed(118000, Arrives(ANNA, Packet(SYN_PACKET, 0), [Some(8)])),
    Timed(118010, Arrives(ANNA, Packet(DATA_PACKET, 7), [])),
    Timed(118500, Ticks),
    Timed(119000, Closes(7))]

  const RELAPSE: seq<Timed> := FIRST_VISIT + TicksAt(EVERY_TWO_SECONDS) + SECOND_VISIT

  /** A run, with its ticks every two seconds, after which the next tick removes a session that it does not put into time-wait. */
  lemma SessionCanLeaveUnseen()
    ensures var t := Run(EMPTY, RELAPSE);
      && 7 in t.sessions && 7 in t.timeWait
      && 7 !in OnTick(t, 120500).0.sessions && 7 !in OnTick(t, 120500).0.timeWait
  {
    hide Step, OnTick;
    var t3 := Tables(map[], map[], map[], map[7 := 500]);
    var t6 := Tables(map[], map[7 := Conn(ANNA, true)], map[7 := 118010], map[7 := 500]);
    FirstVisit(t3);
    QuietTicks(t3, EVERY_TWO_SECONDS);
    SecondVisit(t3, t6);
    RunAppend(EMPTY, FIRST_VISIT + TicksAt(EVERY_TWO_SECONDS), SECOND_VISIT);
    RunAppend(EMPTY, FIRST_VISIT, TicksAt(EVERY_TWO_SECONDS));
    LastTick(t6);
  }

  lemma LastTick(t6: Tables)
    requires t6 == Tables(map[], map[7 := Conn(ANNA, true)], map[7 := 118010], map[7 := 500])
    ensures 7 !in OnTick(t6, 120500).0.sessions && 7 !in OnTick(t6, 120500).0.timeWait
  {
  }

  lemma FirstVisit(t3: Tables)
    requires t3 == Tables(map[], map[], map[], map[7 := 500])
    ensures Run(EMPTY, FIRST_VISIT) == t3
  {
    var t1 := Tables(map[ANNA := Pending(7, 0, 0, 0)], map[], map[], map[]);
    var t2 := Tables(map[], map[7 := Conn(ANNA, false)], map[7 := 10], map[]);
    var es := FIRST_VISIT;
    assert FirstFree(EMPTY, [Some(7)]) == Some(7);
    assert Step(EMPTY, es[0]).0 == t1 && Step(t1, es[1]).0 == t2 && Step(t2, es[2]).0 == t3;
    assert es[1..][1..] == es[2..] && es[2..][1..] == [];
    assert Run(t3, []) == t3;
    assert Run(t2, es[2..]) == t3;
    assert Run(t1, es[1..]) == t3;
  }

  lemma SecondSteps(t3: Tables, t4: Tables, t5: Tables, t6: Tables)
    requires t3 == Tables(map[], map[], map[], map[7 := 500])
    requires t4 == Tables(map[ANNA := Pending(8, 0, 118000, 118000)], map[], map[], map[7 := 500])
    requires t5 == Tables(map[], map[7 := Conn(ANNA, false)], map[7 := 118010], map[7 := 500])
    requires t6 == Tables(map[], map[7 := Conn(ANNA, true)], map[7 := 118010], map[7 := 500])
    ensures var es := SECOND_VISIT;
      && Step(t3, es[0]).0 == t4 && Step(t4, es[1]).0 == t5 && Step(t5, es[2]).0 == t5 && Step(t5, es[3]).0 == t6
  {
    hide OnTick;
    assert FirstFree(t3, [Some(8)]) == Some(8);
    BusyTick(t5);
  }

  /** A session that is neither idle nor closed and an entry that is not over survive a tick. */
  lemma BusyTick(t5: Tables)
    requires t5 == Tables(map[], map[7 := Conn(ANNA, false)], map[7 := 118010], map[7 := 500])
    ensures OnTick(t5, 118500).0 == t5
  {
    assert Leaving(t5, 118500) == {};
  }

  lemma SecondVisit(t3: Tables, t6: Tables)
    requires t3 == Tables(map[], map[], map[], map[7 := 500])
    requires t6 == Tables(map[], map[7 := Conn(ANNA, true)], map[7 := 118010], map[7 := 500])
    ensures Run(t3, SECOND_VISIT) == t6
  {
    hide Step;
    var t4 := Tables(map[ANNA := Pending(8, 0, 118000, 118000)], map[], map[], map[7 := 500]);
    var t5 := Tables(map[], map[7 := Conn(ANNA, false)], map[7 := 118010], map[7 := 500]);
    SecondSteps(t3, t4, t5, t6);
    FourEvents(t3, t4, t5, t5, t6, SECOND_VISIT);
  }

  lemma FourEvents(a: Tables, b: Tables, c: Tables, d: Tables, e: Tables, es: seq<Timed>)
    requires |es| == 4
    requires Step(a, es[0]).0 == b && Step(b, es[1]).0 == c && Step(c, es[2]).0 == d && Step(d, es[3]).0 == e
    ensures Run(a, es) == e
  {
    hide Step;
    assert es[1..][1..] == es[2..] && es[2..][1..] == es[3..] && es[3..][1..] == [];
    assert Run(e, []) == e;
    assert Run(d, es[3..]) == e;
    assert Run(c, es[2..]) == e;
    assert Run(b, es[1..]) == e;
  }

  // ---------------------------------------------------------------------
  // A client that stays silent
  // ---------------------------------------------------------------------

  /** A pending entry after ticks at the given times and nothing else. */
  function AfterTicks(p: Option<Pending>, times: seq<int>): Option<Pending>
    decreases |times|
  {
    if times == [] || p.None? then p
    else
      AfterTicks(if p.value.retries < MAX_SYN_RETRIES then Some(Retried(p.value, times[0])) else None, times[1..])
  }

  /** Ticks at least the retry time apart. */
  predicate Spaced(times: seq<int>) {
    forall i :: 0 <= i < |times| - 1 ==> times[i + 1] - times[i] >= SYN_TIMEOUT
  }

  /** From a tick on which the entry is due, one retry a tick until the limit. */
  lemma {:induction false} DueTicks(p: Pending, times: seq<int>)
    requires 0 <= p.retries <= MAX_SYN_RETRIES && times != [] && Spaced(times) && times[0] - p.sent >= SYN_TIMEOUT
    ensures AfterTicks(Some(p), times).Some? <==> p.retries + |times| <= MAX_SYN_RETRIES
    decreases |times|
  {
    if p.retries < MAX_SYN_RETRIES {
      var q := Retried(p, times[0]);
      if |times| > 1 {
        assert Spaced(times[1..]) by {
          assert forall i :: 0 <= i < |times| - 2 ==> times[1..][i + 1] - times[1..][i] >= SYN_TIMEOUT;
        }
        DueTicks(q, times[1..]);
      } else {
        assert times[1..] == [];
      }
    } else {
      assert AfterTicks(None, times[1..]) == None;
    }
  }

  lemma EarlyTick(p: Pending, times: seq<int>)
    requires p.retries == 0 && Spaced(times) && |times| > 1 && 0 <= times[0] - p.sent < SYN_TIMEOUT
    ensures AfterTicks(Some(p), times).Some? <==> |times| - 1 <= MAX_SYN_RETRIES
  {
    var rest := times[1..];
    assert Retried(p, times[0]) == p;
    assert AfterTicks(Some(p), times) == AfterTicks(Some(p), rest);
    assert rest[0] == times[1];
    assert Spaced(rest) by {
      assert forall i :: 0 <= i < |rest| - 1 ==> rest[i + 1] - rest[i] >= SYN_TIMEOUT;
    }
    DueTicks(p, rest);
  }

  /** The fate of a new entry over ticks, seen from the entry alone. */
  lemma SilentTicks(p: Pending, times: seq<int>)
    requires p.retries == 0 && Spaced(times) && (times != [] ==> p.sent <= times[0])
    ensures |times| == 11 ==> (AfterTicks(Some(p), times).None? <==> times[0] - p.sent >= SYN_TIMEOUT)
    ensures |times| >= 12 ==> AfterTicks(Some(p), times).None?
    ensures |times| <= 10 ==> AfterTicks(Some(p), times).Some?
  {
    if times != [] {
      if times[0] - p.sent >= SYN_TIMEOUT {
        DueTicks(p, times);
      } else if |times| > 1 {
        EarlyTick(p, times);
      } else {
        assert times[1..] == [];
      }
    }
  }

  /** The times of the ticks in a run. */
  function TickTimes(es: seq<Timed>): (times: seq<int>)
    decreases |es|
  {
    if es == [] then [] else (if es[0].event.Ticks? then [es[0].now] else []) + TickTimes(es[1..])
  }

  /** No packet of the run comes from the address. */
  predicate Silent(addr: Addr, es: seq<Timed>) {
    forall i :: 0 <= i < |es| && es[i].event.Arrives? ==> es[i].event.addr != addr
  }

  function EntryOf(t: Tables, addr: Addr): Option<Pending> {
    if addr in t.pending then Some(t.pending[addr]) else None
  }

  lemma OthersLeaveEntry(t: Tables, addr: Addr, e: Timed)
    requires !e.event.Ticks? && (e.event.Arrives? ==> e.event.addr != addr)
    ensures EntryOf(Step(t, e).0, addr) == EntryOf(t, addr)
  {
    hide FirstFree;
  }

  /**
   Whatever other clients send, whichever sessions close: the entry of a silent
   client depends on the ticks of the run alone.
   */
  lemma {:induction false} SilentEntryFollowsTicks(t: Tables, addr: Addr, es: seq<Timed>)
    requires Silent(addr, es)
    ensures EntryOf(Run(t, es), addr) == AfterTicks(EntryOf(t, addr), TickTimes(es))
    decreases |es|
  {
    hide Step;
    if es != [] {
      var e := es[0];
      assert Silent(addr, es[1..]);
      SilentEntryFollowsTicks(Step(t, e).0, addr, es[1..]);
      if e.event.Ticks? {
        TickMovesEntry(t, addr, e);
        assert ([e.now] + TickTimes(es[1..]))[1..] == TickTimes(es[1..]);
      } else {
        OthersLeaveEntry(t, addr, e);
        assert [] + TickTimes(es[1..]) == TickTimes(es[1..]);
      }
    }
  }

  lemma TickMovesEntry(t: Tables, addr: Addr, e: Timed)
    requires e.event.Ticks?
    ensures EntryOf(Step(t, e).0, addr) ==
      match EntryOf(t, addr)
      case None => None
      case Some(p) => if p.retries < MAX_SYN_RETRIES then Some(Retried(p, e.now)) else None
  {
  }

  /**
   In every run in which its client stays silent and ticks are two seconds or
   more apart, a new entry is gone after eleven ticks exactly when the first
   tick came two seconds or more after the entry was made, after twelve in any
   case, and after ten in none; whatever else happens to the server.
   */
  lemma SilentEntryDisappears(t: Tables, addr: Addr, es: seq<Timed>)
    requires addr in t.pending && t.pending[addr].retries == 0 && Silent(addr, es)
    requires var times := TickTimes(es); Spaced(times) && (times != [] ==> t.pending[addr].sent <= times[0])
    ensures var n := |TickTimes(es)|;
      && (n == 11 ==> (addr !in Run(t, es).pending <==> TickTimes(es)[0] - t.pending[addr].sent >= SYN_TIMEOUT))
      && (n >= 12 ==> addr !in Run(t, es).pending)
      && (n <= 10 ==> addr in Run(t, es).pending)
  {
    hide Run, AfterTicks;
    SilentEntryFollowsTicks(t, addr, es);
    SilentTicks(t.pending[addr], TickTimes(es));
  }
}
