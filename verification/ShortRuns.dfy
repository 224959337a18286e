/**
 Runs that cannot wrap around: as long as neither side writes two gigabytes,
 delivery needs no assumption on the age of datagrams.
 */
module ShortRuns {
  import opened SerialArith
  import opened Receiver
  import opened Sender
  import opened Codec
  import opened Fragments
  import opened Engine
  import opened EngineInvariant
  import opened Reassembly
  import opened Retention
  import opened Connection
  import opened WrappedRuns
  import opened ByteRuns
  import opened SessionSteps

  /** What one side writes in a run: its bytes, and one for every call. */
  function Volume(side: Side, acts: seq<Action>): (v: nat)
    decreases |acts|
  {
    if acts == [] then 0
    else (if acts[0].WriteAt? && acts[0].side == side then 1 + |acts[0].data| else 0) + Volume(side, acts[1..])
  }

  /** How many numbers the fragments one side has written so far need. */
  function Numbers(p: Peer): nat {
    |p.log| + |p.k.snd.que|
  }

  lemma CountAtMost(mss: int, len: nat)
    requires mss > 0
    ensures CountOf(mss, len) <= 1 + len
  {
    if len > mss {
      DivAtLeast(len + mss - 1, mss, len + 2);
      MulAtLeast(mss, len + 2);
    }
  }

  lemma MulAtLeast(m: int, n: nat)
    requires m > 0
    ensures m * n >= m + n - 1 || n == 0
  {
    if n > 0 {
      MulMonotone(n - 1, 0, m - 1);
      assert (n - 1) * (m - 1) == m * n - m - n + 1;
    }
  }

  lemma WriteNumbers(p: Peer, alwaysStream: bool, data: seq<byte>)
    requires p.cfg.mss > 0
    ensures Numbers(WriteOp(p, alwaysStream, data)) <= Numbers(p) + 1 + |data|
    ensures WriteOp(p, alwaysStream, data).log == p.log
  {
    hide Enqueue, CountOf;
    WriteGrowsBy(p.cfg.mss, p.cfg.stream || alwaysStream, p.k.snd.que, data);
    CountAtMost(p.cfg.mss, |data|);
  }

  /** Numbering moves fragments from the queue to the log. */
  lemma FlushNumbers(p: Peer, current: int)
    requires Norm(Wide, p.k.snd.nxt) == p.k.snd.nxt
    ensures Numbers(FlushOp(Wide, p, current).0) == Numbers(p)
    ensures |p.log| <= |FlushOp(Wide, p, current).0.log|
  {
    hide AckWires, ProbeWires, PushWires, NextProbe, SweepAll, CountKind, NextDeadline, AfterLoss, AnyExhausted, Datagrams;
    FillIsFifo(Wide, p.k.snd, SendWindow(p.cfg, p.k), current, p.k.rtt.rto);
  }

  lemma InputNumbers(p: Peer, ws: seq<Wire>)
    requires p.cfg.mss > 0
    ensures Numbers(InputOp(Wide, p, ws)) == Numbers(p) && InputOp(Wide, p, ws).log == p.log
  {
    hide InputSegs, Grow, ParseFastack;
    SegsKeepQueue(p.cfg, p.k, NoAck, ws);
    EndKeepsQueue(p.cfg, InputSegs(Wide, p.cfg, p.k, NoAck, ws).0, InputSegs(Wide, p.cfg, p.k, NoAck, ws).1, p.k.snd.una);
  }

  lemma EndKeepsQueue(cfg: Config, k: Kcb, m: MaxAck, prevUna: int)
    requires cfg.mss > 0
    ensures EndInput(Wide, cfg, k, m, prevUna).snd.que == k.snd.que
  {
    hide Grow, Skip;
  }

  lemma {:induction false} SegsKeepQueue(cfg: Config, k: Kcb, m: MaxAck, ws: seq<Wire>)
    ensures InputSegs(Wide, cfg, k, m, ws).0.snd.que == k.snd.que
    decreases |ws|
  {
    hide UpdateAck, NextMax;
    if ws != [] {
      SegsKeepQueue(cfg, InputSeg(Wide, cfg, k, ws[0]), NextMax(Wide, m, ws[0]), ws[1..]);
      InputSegSnd(Wide, cfg, k, ws[0]);
    }
  }

  lemma OtherNumbers(p: Peer, len: int)
    ensures Numbers(RecvOp(Wide, p, len)) == Numbers(p) && RecvOp(Wide, p, len).log == p.log
    ensures Numbers(FlushAckOp(p).0) == Numbers(p) && FlushAckOp(p).0.log == p.log
  {
    hide RecvFront, AckWires, Datagrams;
  }

  lemma StepNumbers(n: Net, act: Action, side: Side)
    requires Usable(n)
    ensures Numbers(PeerAt(Step(Wide, n, act), side)) <= Numbers(PeerAt(n, side)) + Volume(side, [act])
    ensures |PeerAt(n, side).log| <= |PeerAt(Step(Wide, n, act), side).log|
  {
    hide WriteOp, FlushOp, InputOp, RecvOp, FlushAckOp, Numbers;
    VolumeOfOne(side, act);
    var p := PeerAt(n, act.side);
    match act
    case WriteAt(_, alwaysStream, data) => WriteNumbers(p, alwaysStream, data);
    case FlushAt(_, current) => FlushNumbers(p, current);
    case FlushAckAt(_) => OtherNumbers(p, 0);
    case InputAt(_, i) =>
      var box := SentBy(n, Other(act.side));
      if i < |box| {
        InputNumbers(p, box[i]);
      }
    case RecvAt(_, len) => OtherNumbers(p, len);
  }

  lemma VolumeOfOne(side: Side, act: Action)
    ensures Volume(side, [act]) == if act.WriteAt? && act.side == side then 1 + |act.data| else 0
  {
    assert [act][1..] == [];
    assert Volume(side, []) == 0;
  }

  /** While few numbers are in use, everything on the network is recent. */
  lemma FewNumbersAreRecent(n: Net, act: Action)
    requires Usable(n) && NetInv(n) && |n.a.log| <= MAX_AGE && |n.b.log| <= MAX_AGE
    ensures Timely(n, act)
  {
    hide PeerInv, TxInv, RxInv, Retained, AcksOk, InRing, WindowsOk, Held;
    if act.InputAt? && act.i < |SentBy(n, Other(act.side))| {
      var ws := SentBy(n, Other(act.side))[act.i];
      var x, y := PeerAt(n, act.side), PeerAt(n, Other(act.side));
      forall j | 0 <= j < |ws|
        ensures Recent(|x.log|, |y.log|, ws[j])
      {
        assert AckOk(|x.log|, y.k.rcv, ws[j]) && PushOk(y.log, ws[j]);
      }
    }
  }

  lemma {:induction false} ShortRunIsTimely(n: Net, acts: seq<Action>)
    requires Usable(n) && NetInv(n)
    requires Numbers(n.a) + Volume(A, acts) <= MAX_AGE && Numbers(n.b) + Volume(B, acts) <= MAX_AGE
    ensures TimelyRun(n, acts)
    decreases |acts|
  {
    hide NetInv, Step, Timely;
    if acts != [] {
      FewNumbersAreRecent(n, acts[0]);
      StepKeepsInv(n, acts[0]);
      VolumeOfOne(A, acts[0]);
      VolumeOfOne(B, acts[0]);
      StepNumbers(n, acts[0], A);
      StepNumbers(n, acts[0], B);
      ShortRunIsTimely(Step(Wide, n, acts[0]), acts[1..]);
    }
  }

  lemma StartUsable(cfgA: Config, cfgB: Config)
    requires ConfigOk(cfgA) && ConfigOk(cfgB)
    ensures Usable(Start(cfgA, cfgB)) && Numbers(Start(cfgA, cfgB).a) == 0 == Numbers(Start(cfgA, cfgB).b)
  {
  }

  /**
   Any run in which neither side writes more than 2^31 - 2^20 bytes, counting
   one for every call, delivers: whatever the network loses, repeats, reorders
   or keeps for however long, both directions are reliable.
   */
  lemma EveryShortRunDelivers(cfgA: Config, cfgB: Config, acts: seq<Action>)
    requires ConfigOk(cfgA) && ConfigOk(cfgB) && cfgA.conv == cfgB.conv
    requires Volume(A, acts) <= MAX_AGE && Volume(B, acts) <= MAX_AGE
    ensures var n := ByteRun(ByteNet(NewPeer(cfgA), NewPeer(cfgB), [], []), acts);
      Reliable(n.a, n.b) && Reliable(n.b, n.a)
  {
    hide ConfigOk, NetInv, TimelyRun, ByteRun, Reliable;
    StartInv(cfgA, cfgB);
    StartUsable(cfgA, cfgB);
    ShortRunIsTimely(Start(cfgA, cfgB), acts);
    EveryByteRunDelivers(cfgA, cfgB, acts);
  }

  // ---------------------------------------------------------------------
  // Sessions
  // ---------------------------------------------------------------------

  /**
   What the user of one side writes: two for every write, which makes at most
   two calls, and twice the bytes, for a message that is refused is offered
   again as stream data.
   */
  function SessionVolume(side: Side, acts: seq<SessionAct>): (v: nat)
    decreases |acts|
  {
    if acts == [] then 0
    else
      (if acts[0].UserWrites? && acts[0].side == side then 2 + 2 * |acts[0].data| else 0) + SessionVolume(side, acts[1..])
  }

  lemma {:induction false} VolumeAppend(side: Side, a: seq<Action>, b: seq<Action>)
    ensures Volume(side, a + b) == Volume(side, a) + Volume(side, b)
    decreases |a|
  {
    if a == [] {
      assert a + b == b;
    } else {
      assert (a + b)[1..] == a[1..] + b;
      VolumeAppend(side, a[1..], b);
    }
  }

  lemma {:induction false} ReadingIsFree(side: Side, acts: seq<Action>)
    requires forall i :: 0 <= i < |acts| ==> !Writes(acts[i])
    ensures Volume(side, acts) == 0
    decreases |acts|
  {
    if acts != [] {
      assert !Writes(acts[0]);
      ReadingIsFree(side, acts[1..]);
    }
  }

  lemma CallVolume(side: Side, at: Side, alwaysStream: bool, data: seq<byte>)
    ensures Volume(side, CallActions(at, alwaysStream, data)) <= if at == side then 1 + |data| else 0
  {
    hide AsInt, Volume;
    var len := AsInt(|data|);
    ReadingIsFree(side, []);
    if len >= 0 {
      VolumeOfOne(side, WriteAt(at, alwaysStream, data[..len]));
    }
  }

  lemma WriteVolume(side: Side, at: Side, p: Peer, data: seq<byte>, now: u32)
    requires p.cfg.mss > 0
    ensures Volume(side, WriteActions(at, p, data, now)) <= if at == side then 2 + 2 * |data| else 0
  {
    hide Offered, SentOf, FlushesAtOnce, Volume, CallActions;
    var n, sent := Offered(p.cfg, p.k, |data|), SentOf(p, data);
    var a1 := if n > 0 then CallActions(at, false, data[..n]) else [];
    var a2 := if FlushesAtOnce(p, data) then [FlushAt(at, now)] else [];
    var a3 := if sent < |data| then CallActions(at, true, data[sent..]) else [];
    VolumeAppend(side, a1 + a2, a3);
    VolumeAppend(side, a1, a2);
    ReadingIsFree(side, []);
    CallVolume(side, at, false, data[..n]);
    VolumeOfOne(side, FlushAt(at, now));
    CallVolume(side, at, true, data[sent..]);
  }

  /** Users who write that little write less than 2^31 bytes at a time. */
  lemma {:induction false} ShortIsInt(side: Side, acts: seq<SessionAct>)
    requires SessionVolume(side, acts) <= MAX_AGE
    ensures IntWrites(side, acts)
    decreases |acts|
  {
    if acts != [] {
      ShortIsInt(side, acts[1..]);
      forall i | 0 <= i < |acts| && acts[i].UserWrites? && acts[i].side == side
        ensures |acts[i].data| < 0x8000_0000
      {
        if i > 0 {
          assert acts[1..][i - 1] == acts[i];
        }
      }
    }
  }

  lemma ActVolume(side: Side, t: Sessions, act: SessionAct)
    requires ByteUsable(t.net)
    ensures Volume(side, ActionsOf(t, act)) <= SessionVolume(side, [act])
  {
    hide Volume, WriteActions, PacketActions, ByteUsable;
    assert [act][1..] == [] && SessionVolume(side, []) == 0;
    UsablePeer(t.net, act.side);
    if act.UserWrites? && !IsClosed(t, act.side) {
      WriteVolume(side, act.side, BytePeer(t.net, act.side), act.data, act.now);
    } else {
      OtherActsWriteNothing(t, act);
      ReadingIsFree(side, ActionsOf(t, act));
    }
  }

  lemma {:induction false} AllVolume(side: Side, t: Sessions, acts: seq<SessionAct>)
    requires ByteUsable(t.net)
    ensures Volume(side, AllActions(t, acts)) <= SessionVolume(side, acts)
    decreases |acts|
  {
    hide ActionsOf, SessionStep, ByteUsable, Volume;
    if acts == [] {
      ReadingIsFree(side, []);
    } else {
      ActVolume(side, t, acts[0]);
      assert [acts[0]][1..] == [] && SessionVolume(side, []) == 0;
      VolumeAppend(side, ActionsOf(t, acts[0]), AllActions(SessionStep(t, acts[0]), acts[1..]));
      AllVolume(side, SessionStep(t, acts[0]), acts[1..]);
    }
  }

  /**
   Two sessions whose users write less than a gigabyte each: whatever the
   network does, both directions are reliable, and the bytes handed to one user
   are a prefix of the bytes the other handed to Write.
   */
  lemma EveryShortSessionRunDelivers(cfgA: Config, cfgB: Config, acts: seq<SessionAct>)
    requires ConfigOk(cfgA) && ConfigOk(cfgB) && cfgA.conv == cfgB.conv
    requires SessionVolume(A, acts) <= MAX_AGE && SessionVolume(B, acts) <= MAX_AGE
    ensures SessionsDeliver(Opened(cfgA, cfgB), acts)
    ensures var t := SessionRun(Opened(cfgA, cfgB), acts);
      t.net.b.read <= Handed(A, acts) && t.net.a.read <= Handed(B, acts)
  {
    hide ConfigOk, SessionRun, ByteRun, AllActions, Handed, Accepted, Reliable, IntWrites;
    var start := Opened(cfgA, cfgB);
    OpenedUsable(cfgA, cfgB);
    AllVolume(A, start, acts);
    AllVolume(B, start, acts);
    ShortIsInt(A, acts);
    ShortIsInt(B, acts);
    SessionRunIsByteRun(start, acts);
    EveryShortRunDelivers(cfgA, cfgB, AllActions(start, acts));
    ReliableDelivers(cfgA, cfgB, acts);
  }
}
