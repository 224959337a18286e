/**
 The life of a client's attempts and sessions over whole runs: when an attempt
 sends again and gives up, how long a session lasts, and what it sends
 meanwhile.
 */
module ClientLife {
  import opened SerialArith
  import opened Options
  import opened Envelope
  import opened ServerSteps
  import CS = ClientSteps

  /** The client after the first m events. */
  function Then(reconnect: bool, es: seq<CS.At>, m: nat): CS.Client
    requires m <= |es|
  {
    CS.Run(CS.NewClient(reconnect), es[..m])
  }

  lemma ThenNext(reconnect: bool, es: seq<CS.At>, m: nat)
    requires m < |es|
    ensures Then(reconnect, es, m + 1) == CS.Step(Then(reconnect, es, m), es[m].event, es[m].now).0
    ensures CS.ClientOk(Then(reconnect, es, m))
  {
    hide CS.Step, CS.ClientOk;
    NewIsOk(reconnect);
    CS.RunKeepsClient(CS.NewClient(reconnect), es[..m]);
    CS.RunAppend(CS.NewClient(reconnect), es[..m], [es[m]]);
    assert es[..m + 1] == es[..m] + [es[m]];
    var c := Then(reconnect, es, m);
    assert [es[m]][1..] == [];
    assert CS.Run(c, [es[m]]) == CS.Run(CS.Step(c, es[m].event, es[m].now).0, []);
  }

  lemma NewIsOk(reconnect: bool)
    ensures CS.ClientOk(CS.NewClient(reconnect))
  {
  }

  lemma ThenPrefix(reconnect: bool, es: seq<CS.At>, n: nat, m: nat)
    requires m <= n <= |es|
    ensures Then(reconnect, es[..n], m) == Then(reconnect, es, m)
  {
    assert es[..n][..m] == es[..m];
  }

  // ---------------------------------------------------------------------
  // Connected
  // ---------------------------------------------------------------------

  /** A PONG or data, on a session. */
  predicate Hears(c: CS.Client, e: CS.Event) {
    c.socketOpen && c.live.Some? && e.Receives? && (e.packet.kind == PONG_PACKET || e.packet.kind == DATA_PACKET)
  }

  predicate Receives(e: CS.Event, kind: byte) {
    e.Receives? && e.packet.kind == kind
  }

  /** What one event does to a session and to the time of the last sign of the server. */
  lemma StepLive(c: CS.Client, e: CS.Event, now: int)
    requires CS.ClientOk(c)
    ensures var d := CS.Step(c, e, now).0;
      && d.lastReceived == (if Hears(c, e) then Some(now) else c.lastReceived)
      && (d.live.Some? && c.live.Some? ==>
            && d.live.value.id == c.live.value.id && d.lastPing == c.lastPing
            && d.live.value.closed == (c.live.value.closed || e.SessionCloses?))
      && (d.live.Some? && c.live.None? ==>
            Receives(e, SYN_PACKET) && d.live.value == CS.Live(e.packet.id, false) && d.lastPing == Some(now))
  {
  }

  /** The event is a SYN that connected the client, which has been connected ever since. */
  predicate ConnectedBy(reconnect: bool, es: seq<CS.At>, o: nat) {
    && o < |es| && Receives(es[o].event, SYN_PACKET) && Then(reconnect, es, o).state != CS.CONNECTED
    && forall m :: o < m <= |es| ==> Then(reconnect, es, m).state == CS.CONNECTED
  }

  /** A client that is connected after any run: by which SYN, under which id, and whether the session has been closed since. */
  lemma {:induction false} ConnectedHistory(reconnect: bool, es: seq<CS.At>) returns (o: nat)
    requires CS.Run(CS.NewClient(reconnect), es).state == CS.CONNECTED
    ensures ConnectedBy(reconnect, es, o)
    ensures var c := CS.Run(CS.NewClient(reconnect), es);
      && c.live.Some? && c.live.value.id == es[o].event.packet.id && c.lastPing == Some(es[o].now)
      && (c.live.value.closed <==> exists m :: o < m < |es| && es[m].event.SessionCloses?)
    decreases |es|
  {
    hide CS.Step;
    assert es[..|es|] == es;
    if es == [] {
      assert false;
    }
    var n := |es| - 1;
    var c := Then(reconnect, es, n);
    ThenNext(reconnect, es, n);
    CS.StepKeepsClient(c, es[n].event, es[n].now);
    StepLive(c, es[n].event, es[n].now);
    forall m | 0 <= m <= n
      ensures Then(reconnect, es[..n], m) == Then(reconnect, es, m)
    {
      ThenPrefix(reconnect, es, n, m);
    }
    if c.state == CS.CONNECTED {
      o := ConnectedHistory(reconnect, es[..n]);
      assert forall m :: 0 <= m < n ==> es[..n][m] == es[m];
    } else {
      o := n;
    }
  }

  /** The event is the last sign of the server; or there has been none yet. */
  predicate LastHeard(reconnect: bool, es: seq<CS.At>, j: Option<nat>) {
    && (j.Some? ==> j.value < |es| && Hears(Then(reconnect, es, j.value), es[j.value].event))
    && forall m :: 0 <= m < |es| && (j.Some? ==> j.value < m) ==> !Hears(Then(reconnect, es, m), es[m].event)
  }

  lemma {:induction false} HeardHistory(reconnect: bool, es: seq<CS.At>) returns (j: Option<nat>)
    ensures LastHeard(reconnect, es, j)
    ensures CS.Run(CS.NewClient(reconnect), es).lastReceived == match j { case None => None case Some(i) => Some(es[i].now) }
    decreases |es|
  {
    hide CS.Step, Hears;
    assert es[..|es|] == es;
    if es == [] {
      j := None;
    } else {
      var n := |es| - 1;
      var c := Then(reconnect, es, n);
      ThenNext(reconnect, es, n);
      StepLive(c, es[n].event, es[n].now);
      j := HeardHistory(reconnect, es[..n]);
      assert forall m :: 0 <= m < n ==> es[..n][m] == es[m];
      forall m | 0 <= m <= n
        ensures Then(reconnect, es[..n], m) == Then(reconnect, es, m)
      {
        ThenPrefix(reconnect, es, n, m);
      }
      if Hears(c, es[n].event) {
        j := Some(n);
      }
    }
  }

  /** When a session ends in one step, and what the periodic task sends for one that goes on. */
  lemma SessionStep(c: CS.Client, e: CS.Event, now: int)
    requires CS.ClientOk(c) && c.state == CS.CONNECTED
    ensures var (d, out) := CS.Step(c, e, now);
      var stale := c.lastReceived.Some? && now - c.lastReceived.value >= 120000;
      && (d.state != CS.CONNECTED <==>
            e.Disconnects? || Receives(e, RST_PACKET) || (e.Ticks? && (stale || c.live.value.closed)))
      && (e.Ticks? && d.state == CS.CONNECTED && c.lastPing.Some? && now - c.lastPing.value >= 5000 ==>
            out == {Packet(PING_PACKET, c.live.value.id)})
      && (e.Ticks? && (d.state != CS.CONNECTED || c.lastPing.None? || now - c.lastPing.value < 5000) ==> out == {})
      && (e.Disconnects? ==> out == {Packet(RST_PACKET, c.live.value.id)})
  {
  }

  /**
   In any run: a connected client ends its session with the next event exactly
   when it disconnects or is reset, or when a periodic task finds the session
   closed or the last sign of the server two minutes old; and a periodic task
   that goes on pings exactly from five seconds after the connection on.
   */
  lemma SessionEndsExactly(reconnect: bool, es: seq<CS.At>, e: CS.At, o: nat, j: Option<nat>)
    requires ConnectedBy(reconnect, es, o) && LastHeard(reconnect, es, j)
    ensures var (d, out) := CS.Step(CS.Run(CS.NewClient(reconnect), es), e.event, e.now);
      && (d.state != CS.CONNECTED <==>
            || e.event.Disconnects? || Receives(e.event, RST_PACKET)
            || (e.event.Ticks?
                && ((j.Some? && e.now - es[j.value].now >= 120000)
                    || exists m :: o < m < |es| && es[m].event.SessionCloses?)))
      && (e.event.Ticks? && d.state == CS.CONNECTED ==>
            out == if e.now - es[o].now >= 5000 then {Packet(PING_PACKET, es[o].event.packet.id)} else {})
  {
    hide CS.Step, Hears, CS.Run;
    assert es[..|es|] == es;
    var c := CS.Run(CS.NewClient(reconnect), es);
    assert Then(reconnect, es, |es|) == c;
    var o' := ConnectedHistory(reconnect, es);
    var j' := HeardHistory(reconnect, es);
    SameSign(reconnect, es, j, j');
    SameOpening(reconnect, es, o, o');
    NewIsOk(reconnect);
    CS.RunKeepsClient(CS.NewClient(reconnect), es);
    SessionStep(c, e.event, e.now);
  }

  lemma SameSign(reconnect: bool, es: seq<CS.At>, j: Option<nat>, j': Option<nat>)
    requires LastHeard(reconnect, es, j) && LastHeard(reconnect, es, j')
    ensures j == j'
  {
    hide Hears, Then;
  }

  lemma SameOpening(reconnect: bool, es: seq<CS.At>, o: nat, o': nat)
    requires ConnectedBy(reconnect, es, o) && ConnectedBy(reconnect, es, o')
    ensures o == o'
  {
    hide Then;
  }

  // ---------------------------------------------------------------------
  // Attempts
  // ---------------------------------------------------------------------

  predicate SendsSyn(reconnect: bool, es: seq<CS.At>, m: nat) {
    m < |es| && Packet(SYN_PACKET, 0) in CS.Step(Then(reconnect, es, m), es[m].event, es[m].now).1
  }

  /** How many of the events from one up to another sent a SYN. */
  function SynCount(reconnect: bool, es: seq<CS.At>, first: nat, last: nat): (n: nat)
    requires first <= last
  {
    if first == last then 0 else SynCount(reconnect, es, first, last - 1) + if SendsSyn(reconnect, es, last - 1) then 1 else 0
  }

  /** The event began an attempt, which has been under way ever since. */
  predicate BegunBy(reconnect: bool, es: seq<CS.At>, o: nat) {
    && o < |es| && Then(reconnect, es, o).state == CS.CLOSED
    && forall m :: o < m <= |es| ==> Then(reconnect, es, m).state == CS.PENDING
  }

  /** The event sent the last SYN of the attempt. */
  predicate LastSyn(reconnect: bool, es: seq<CS.At>, o: nat, j: nat) {
    && o <= j < |es| && SendsSyn(reconnect, es, j)
    && forall m :: j < m < |es| ==> !SendsSyn(reconnect, es, m)
  }

  /** What one event does to an attempt: it ends, it sends a SYN and counts it, or it stays. */
  lemma AttemptStep(c: CS.Client, e: CS.Event, now: int)
    requires CS.ClientOk(c)
    ensures var (d, out) := CS.Step(c, e, now);
      var syn := Packet(SYN_PACKET, 0) in out;
      && (c.state == CS.PENDING && d.state == CS.PENDING ==>
            && d.attempt.value == (if syn then CS.Attempt(c.attempt.value.retries + 1, now) else c.attempt.value)
            && (syn <==> e.Ticks? && now - c.attempt.value.sent >= 2000))
      && (c.state == CS.PENDING ==> (d.state != CS.PENDING <==>
            || Receives(e, SYN_PACKET) || Receives(e, RST_PACKET) || e.Disconnects?
            || (e.Ticks? && c.attempt.value.retries == 30)))
      && (c.state != CS.PENDING && d.state == CS.PENDING ==>
            c.state == CS.CLOSED && syn && out == {Packet(SYN_PACKET, 0)} && d.attempt.value == CS.Attempt(0, now))
  {
  }

  lemma SynPrefix(reconnect: bool, es: seq<CS.At>, n: nat, m: nat)
    requires m < n <= |es|
    ensures SendsSyn(reconnect, es[..n], m) == SendsSyn(reconnect, es, m)
  {
    hide CS.Step;
    ThenPrefix(reconnect, es, n, m);
  }

  lemma {:induction false} CountPrefix(reconnect: bool, es: seq<CS.At>, n: nat, first: nat, last: nat)
    requires first <= last <= n <= |es|
    ensures SynCount(reconnect, es[..n], first, last) == SynCount(reconnect, es, first, last)
    decreases last
  {
    hide SendsSyn;
    if first < last {
      CountPrefix(reconnect, es, n, first, last - 1);
      SynPrefix(reconnect, es, n, last - 1);
    }
  }

  /** An attempt that is under way after any run: one SYN began it, and every retry is one SYN more. */
  lemma {:induction false} AttemptHistory(reconnect: bool, es: seq<CS.At>) returns (o: nat, j: nat)
    requires CS.Run(CS.NewClient(reconnect), es).state == CS.PENDING
    ensures BegunBy(reconnect, es, o) && LastSyn(reconnect, es, o, j)
    ensures var a := CS.Run(CS.NewClient(reconnect), es).attempt;
      a == Some(CS.Attempt(SynCount(reconnect, es, o, |es|) - 1, es[j].now))
    decreases |es|
  {
    hide CS.Step;
    assert es[..|es|] == es;
    if es == [] {
      assert false;
    }
    var n := |es| - 1;
    var c := Then(reconnect, es, n);
    ThenNext(reconnect, es, n);
    CS.StepKeepsClient(c, es[n].event, es[n].now);
    AttemptStep(c, es[n].event, es[n].now);
    forall m | 0 <= m <= n
      ensures Then(reconnect, es[..n], m) == Then(reconnect, es, m)
      ensures m < n ==> SendsSyn(reconnect, es[..n], m) == SendsSyn(reconnect, es, m)
    {
      ThenPrefix(reconnect, es, n, m);
      if m < n {
        SynPrefix(reconnect, es, n, m);
      }
    }
    if c.state == CS.PENDING {
      o, j := AttemptHistory(reconnect, es[..n]);
      CountPrefix(reconnect, es, n, o, n);
      assert es[..n][j] == es[j];
      if SendsSyn(reconnect, es, n) {
        j := n;
      }
    } else {
      o, j := n, n;
      assert SynCount(reconnect, es, n, n) == 0;
    }
  }

  lemma SameAttempt(reconnect: bool, es: seq<CS.At>, o: nat, j: nat, o': nat, j': nat)
    requires BegunBy(reconnect, es, o) && LastSyn(reconnect, es, o, j)
    requires BegunBy(reconnect, es, o') && LastSyn(reconnect, es, o', j')
    ensures o == o' && j == j'
  {
    hide Then, SendsSyn;
  }

  /**
   In any run: an attempt ends with the next event exactly when the server
   answers, the client disconnects, or a periodic task comes after thirty-one
   SYNs; before that a periodic task sends one more exactly when the last is two
   seconds old.
   */
  lemma AttemptEndsExactly(reconnect: bool, es: seq<CS.At>, e: CS.At, o: nat, j: nat)
    requires BegunBy(reconnect, es, o) && LastSyn(reconnect, es, o, j)
    ensures var (d, out) := CS.Step(CS.Run(CS.NewClient(reconnect), es), e.event, e.now);
      && (d.state != CS.PENDING <==>
            || Receives(e.event, SYN_PACKET) || Receives(e.event, RST_PACKET) || e.event.Disconnects?
            || (e.event.Ticks? && SynCount(reconnect, es, o, |es|) == 31))
      && (d.state == CS.PENDING ==>
            (Packet(SYN_PACKET, 0) in out <==> e.event.Ticks? && e.now - es[j].now >= 2000))
  {
    hide CS.Step, CS.Run, SynCount, SendsSyn;
    assert es[..|es|] == es;
    assert Then(reconnect, es, |es|) == CS.Run(CS.NewClient(reconnect), es);
    var o', j' := AttemptHistory(reconnect, es);
    SameAttempt(reconnect, es, o, j, o', j');
    NewIsOk(reconnect);
    CS.RunKeepsClient(CS.NewClient(reconnect), es);
    AttemptStep(CS.Run(CS.NewClient(reconnect), es), e.event, e.now);
  }

  // ---------------------------------------------------------------------
  // Answers
  // ---------------------------------------------------------------------

  /**
   What a client answers: the SYN of the session it has afterwards is
   acknowledged and any other reset; signs of a server without a session are
   reset; and nothing else is answered.
   */
  lemma AnswersExactly(c: CS.Client, p: Packet, now: int)
    requires CS.ClientOk(c) && c.socketOpen
    ensures var (d, out) := CS.Step(c, CS.Receives(p), now);
      var mine := d.live.Some? && d.live.value.id == p.id;
      && (p.kind == SYN_PACKET ==> out == {Packet(if mine then ACK_PACKET else RST_PACKET, p.id)})
      && (p.kind == PONG_PACKET || p.kind == DATA_PACKET ==>
            out == if c.live.Some? then {} else {Packet(RST_PACKET, p.id)})
      && (p.kind != SYN_PACKET && p.kind != PONG_PACKET && p.kind != DATA_PACKET ==> out == {})
  {
  }

  /** What the user sends goes out under the id of the session, and only while there is one. */
  lemma SendsUnderId(c: CS.Client, now: int)
    ensures var (d, out) := CS.Step(c, CS.Sends, now);
      d == c && out == if c.live.Some? then {Packet(DATA_PACKET, c.live.value.id)} else {}
  {
  }

  // ---------------------------------------------------------------------
  // Coming back
  // ---------------------------------------------------------------------

  /** How often the first m events have set the reconnect timer. */
  function TimerSettings(reconnect: bool, es: seq<CS.At>, m: nat): nat
    requires m <= |es|
  {
    if m == 0 then 0
    else
      TimerSettings(reconnect, es, m - 1)
      + if !Then(reconnect, es, m - 1).timerSet && Then(reconnect, es, m).timerSet then 1 else 0
  }

  lemma TimerStep(c: CS.Client, e: CS.Event, now: int)
    requires CS.ClientOk(c)
    ensures var d := CS.Step(c, e, now).0;
      && d.times == c.times + (if !c.timerSet && d.timerSet then 1 else 0)
      && (!c.timerSet && d.timerSet ==> d.delay == Min(500 * d.times, 3000))
      && (c.timerSet ==> d.delay == c.delay)
  {
  }

  /** The delay before the next attempt grows by half a second each time, up to three seconds. */
  lemma {:induction false} DelayGrows(reconnect: bool, es: seq<CS.At>, m: nat)
    requires m <= |es|
    ensures var c := Then(reconnect, es, m);
      && c.times == TimerSettings(reconnect, es, m)
      && (c.timerSet ==> c.delay == Min(500 * TimerSettings(reconnect, es, m), 3000))
    decreases m
  {
    hide CS.Step;
    if m > 0 {
      DelayGrows(reconnect, es, m - 1);
      ThenNext(reconnect, es, m - 1);
      TimerStep(Then(reconnect, es, m - 1), es[m - 1].event, es[m - 1].now);
    }
  }
}
