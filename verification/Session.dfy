/**
 A session: the object that owns a control block, feeds it packets and user
 data, and hands received messages to the user.
 */
module Session {
  import opened SerialArith
  import opened Options
  import opened Receiver
  import opened Codec
  import opened Sender
  import opened Engine
  import opened EngineInvariant
  import opened Connection
  import opened ByteRuns
  import opened SessionSteps
  import opened Kcp

  /** The callbacks a session makes or posts to its loop. */
  datatype Event =
    | ConnectionUp
    | ConnectionDown
    | FlushTx
    | Message(data: seq<byte>)
    | WriteComplete
    | HighWaterMark(waitsnd: nat)

  /** Which callbacks the owner of the session has set; a server sets all of them, a client two fewer. */
  datatype Callbacks = Callbacks(connection: bool, message: bool, writeComplete: bool, highWater: bool, flushTx: bool)

  predicate Hears(on: Callbacks, e: Event) {
    match e
    case ConnectionUp => on.connection
    case ConnectionDown => on.connection
    case FlushTx => on.flushTx
    case Message(_) => on.message
    case WriteComplete => on.writeComplete
    case HighWaterMark(_) => on.highWater
  }

  /** The events a callback is set for. */
  function Heard(on: Callbacks, es: seq<Event>): seq<Event> {
    if es == [] then [] else (if Hears(on, es[0]) then [es[0]] else []) + Heard(on, es[1..])
  }

  lemma {:induction false} HeardAppend(on: Callbacks, a: seq<Event>, b: seq<Event>)
    ensures Heard(on, a + b) == Heard(on, a) + Heard(on, b)
  {
    if a == [] {
      assert a + b == b;
    } else {
      assert (a + b)[1..] == a[1..] + b;
      HeardAppend(on, a[1..], b);
    }
  }

  lemma NothingHeard(on: Callbacks, posted: seq<Event>)
    ensures Heard(on, []) == [] && posted + Heard(on, []) == posted
  {
  }

  function FlushEvents(p: Peer, data: seq<byte>): seq<Event>
    requires p.cfg.mss > 0
  {
    if FlushesAtOnce(p, data) then [FlushTx] else []
  }

  function DoneEvents(p: Peer, data: seq<byte>): seq<Event>
    requires p.cfg.mss > 0
  {
    if 0 < SentOf(p, data) == |data| then [WriteComplete] else []
  }

  function SendEvents(p: Peer, data: seq<byte>): seq<Event>
    requires p.cfg.mss > 0
  {
    FlushEvents(p, data) + DoneEvents(p, data)
  }

  /** What the user is told about a write, given the backlog before and after it. */
  function WriteEvents(p: Peer, data: seq<byte>, after: Kcb): seq<Event>
    requires p.cfg.mss > 0
  {
    SendEvents(p, data) + MarkEvents(p, data, after)
  }

  function MarkEvents(p: Peer, data: seq<byte>, after: Kcb): seq<Event>
    requires p.cfg.mss > 0
  {
    if AsInt(|data| - SentOf(p, data)) >= 0 && SentOf(p, data) < |data|
       && !ReachHighWater(p.cfg, p.k) && ReachHighWater(p.cfg, after)
    then [HighWaterMark(WaitSnd(after))] else []
  }

  /**
   What the callbacks of a write mean. Nothing goes out without the transmit
   queue being flushed; a write is complete when all of it has gone into the
   window; the mark is told with the backlog that has passed it.
   */
  lemma WriteTells(p: Peer, data: seq<byte>, now: u32)
    requires p.cfg.mss > 0 && p.k.rmtWnd >= 0
    ensures var (q, out) := WritePeer(p, data, now);
      var es := WriteEvents(p, data, q.k);
      && (FlushTx !in es ==> out == [])
      && (WriteComplete in es ==>
            data != [] && q.written == p.written + data && WaitSnd(q.k) <= Min(p.cfg.sndWnd, p.k.rmtWnd))
      && (forall n :: HighWaterMark(n) in es ==> n == WaitSnd(q.k) && WaitSnd(p.k) < 2 * p.cfg.sndWnd <= n)
  {
    hide CallRet, CallOp, Flush, Offered, AvailableBytes, Pack, WaitSnd;
    SendPeerTells(p, data, now);
    if 0 < SentOf(p, data) == |data| {
      assert data[..|data|] == data;
      SentFits(p, data, now);
    }
  }

  lemma SentFits(p: Peer, data: seq<byte>, now: u32)
    requires p.cfg.mss > 0 && p.k.rmtWnd >= 0 && 0 < SentOf(p, data) == |data|
    ensures WaitSnd(SendPeer(p, data, now).0.k) <= Min(p.cfg.sndWnd, p.k.rmtWnd)
  {
    hide Offered, Write, Flush, AvailableBytes;
    assert data[..|data|] == data;
    OfferedInRange(p.cfg, p.k, |data|);
    CallTells(p, false, data);
    AcceptedIsWrite(p, data);
    OfferFitsWindow(p.cfg, p.k, data);
    FlushKeepsBacklog(CallOp(p, false, data), now);
  }

  lemma AcceptedIsWrite(p: Peer, data: seq<byte>)
    requires p.cfg.mss > 0 && CallRet(p.cfg, p.k, false, data) == 0 && |data| < 0x1_0000_0000
    ensures CallOp(p, false, data).k == Write(p.cfg, p.k, false, data).0
  {
    hide Write;
    assert data[..|data|] == data;
  }

  /** One callback for every message that is not empty. */
  function MessageEvents(ms: seq<seq<byte>>): seq<Event> {
    if ms == [] then [] else (if |ms[0]| > 0 then [Message(ms[0])] else []) + MessageEvents(ms[1..])
  }

  lemma NothingTaken(buffer: seq<byte>, ms: seq<seq<byte>>)
    ensures buffer + Flatten([]) == buffer && MessageEvents([]) == [] && [] + ms == ms
  {
  }

  /** One turn of the loop that takes every message. */
  lemma TakeOne(cfg: Config, k: Kcb, done: seq<seq<byte>>)
    ensures var size := PeekSize(k.rcv.que);
      var (k', ms) := TakeAll(cfg, k);
      if size < 0 then k' == k && done + ms == done
      else
        var (k1, _, data) := Recv(Ring32, cfg, k, size);
        && TakeAll(cfg, k1).0 == k' && done + [data] + TakeAll(cfg, k1).1 == done + ms
        && |k1.rcv.que| + |k1.rcv.buf| < |k.rcv.que| + |k.rcv.buf|
  {
    hide Recv, PeekSize;
    if PeekSize(k.rcv.que) >= 0 {
      RecvShrinks(cfg, k);
    }
  }

  lemma ReadTurn(p: Peer)
    ensures var size := PeekSize(p.k.rcv.que);
      ReadPeer(p) == if size < 0 then p else ReadPeer(RecvOp(Ring32, p, size))
  {
    hide Recv, PeekSize, RecvOp;
  }

  /** What one more message adds to the buffer and to what is heard. */
  lemma OneMessageHeard(on: Callbacks, buffer: seq<byte>, posted: seq<Event>, done: seq<seq<byte>>, data: seq<byte>)
    ensures buffer + (if on.message then Flatten(done) else []) + (if on.message then data else [])
         == buffer + (if on.message then Flatten(done + [data]) else [])
    ensures posted + Heard(on, MessageEvents(done)) + Heard(on, if |data| > 0 then [Message(data)] else [])
         == posted + Heard(on, MessageEvents(done + [data]))
  {
    hide Heard, Flatten, MessageEvents;
    MessageTaken(done, data);
    HeardAppend(on, MessageEvents(done), if |data| > 0 then [Message(data)] else []);
  }

  lemma {:induction false} MessageTaken(done: seq<seq<byte>>, data: seq<byte>)
    ensures Flatten(done + [data]) == Flatten(done) + data
    ensures MessageEvents(done + [data]) == MessageEvents(done) + if |data| > 0 then [Message(data)] else []
  {
    if done == [] {
      assert done + [data] == [data] && [data][1..] == [];
      assert data + [] == [] + data;
    } else {
      assert (done + [data])[1..] == done[1..] + [data];
      MessageTaken(done[1..], data);
      assert done[0] + Flatten(done[1..]) + data == done[0] + (Flatten(done[1..]) + data);
    }
  }

  class Session {
    const kcp: ControlBlock
    const callbacks: Callbacks
    var peerAddress: string
    var closed: bool
    var inputBuffer: seq<byte>
    var posted: seq<Event>

    /** The same end with its history: what the user has written and read. */
    ghost var user: Peer

    ghost predicate Valid()
      reads this, kcp, kcp.acklist
    {
      && kcp.Valid() && KcbInv(Ring32, kcp.cfg, kcp.View())
      && user.cfg == kcp.cfg && user.k == kcp.View()
    }

    /** KCPSession::Initialize, once the parameters have been accepted. */
    constructor (cfg: Config, callbacks: Callbacks, peerAddress: string)
      requires ConfigOk(cfg)
      ensures Valid() && fresh(kcp) && fresh(kcp.acklist) && fresh(kcp.buffer)
      ensures this.callbacks == callbacks && this.peerAddress == peerAddress
      ensures !closed && user == NewPeer(cfg) && kcp.sent == [] && inputBuffer == []
      ensures posted == Heard(callbacks, [ConnectionUp])
    {
      kcp := new ControlBlock(cfg);
      closed, inputBuffer := false, [];
      posted := if callbacks.connection then [ConnectionUp] else [];
      this.callbacks, this.peerAddress := callbacks, peerAddress;
      user := NewPeer(cfg);
      FreshInv(Ring32, cfg);
    }

    // -------------------------------------------------------------------
    // Engine calls, with their history
    // -------------------------------------------------------------------

    /** ikcp_send, or ikcp_append: the length is cast to int. */
    method Send(data: seq<byte>, alwaysStream: bool) returns (ret: int)
      requires Valid()
      modifies kcp`sndQue, kcp`nsndQue, `user
      ensures Valid() && old(user).cfg.mss > 0
      ensures user == CallOp(old(user), alwaysStream, data)
      ensures ret == CallRet(kcp.cfg, old(user.k), alwaysStream, data)
    {
      hide KcbInv, Engine.Write, ConfigOk, I32;
      HeadRoomOk(kcp.cfg);
      var len := AsInt(|data|);
      if len >= 0 {
        WriteKeepsInv(Ring32, kcp.cfg, kcp.View(), alwaysStream, data[..len]);
      }
      ret := kcp.Write(data, len, alwaysStream);
      user := CallOp(user, alwaysStream, data);
    }

    method Flush(now: u32) returns (wait: int)
      requires Valid()
      modifies kcp`current, kcp`ackcount, kcp`probe, kcp`sndNxt, kcp`sndBuf, kcp`sndQue, kcp`nsndBuf, kcp`nsndQue
      modifies kcp`xmit, kcp`dead, kcp`cong, kcp`sent, kcp.buffer, `user
      ensures Valid()
      ensures user == FlushOp(Ring32, old(user), now).0
      ensures kcp.sent == old(kcp.sent) + EncodeGrams(kcp.cfg.conv, FlushOp(Ring32, old(user), now).1)
      ensures wait == Engine.Flush(Ring32, kcp.cfg, old(user.k), now).wait
    {
      hide KcbInv, Engine.Flush, ConfigOk, Pack, EncodeGrams, MoveCount;
      FlushKeepsInv(Ring32, kcp.cfg, kcp.View(), now);
      wait := kcp.Flush(now);
      user := FlushOp(Ring32, user, now).0;
    }

    method Input(bytes: seq<byte>) returns (ret: int)
      requires Valid()
      modifies kcp`rmtWnd, kcp`sndBuf, kcp`nsndBuf, kcp`sndUna, kcp`rtt, kcp`probe, kcp`cong
      modifies kcp`acklist, kcp`ackcount, kcp.acklist
      modifies kcp`rcvNxt, kcp`rcvBuf, kcp`rcvQue, kcp`nrcvBuf, kcp`nrcvQue, `user
      ensures Valid() && (kcp.acklist == old(kcp.acklist) || fresh(kcp.acklist))
      ensures user == old(user).(k := InputBytes(kcp.cfg, old(user.k), bytes).k)
      ensures ret == InputBytes(kcp.cfg, old(user.k), bytes).ret
    {
      hide KcbInv, InputBytes, ConfigOk;
      HeadRoomOk(kcp.cfg);
      InputBytesKeepsInv(kcp.cfg, kcp.View(), bytes);
      ret := kcp.Input(bytes);
      user := user.(k := kcp.View());
    }

    method Receive(size: int) returns (len: int, data: seq<byte>)
      requires Valid() && 0 <= size == PeekSize(user.k.rcv.que)
      modifies kcp`rcvNxt, kcp`rcvBuf, kcp`rcvQue, kcp`nrcvBuf, kcp`nrcvQue, kcp`probe, `user
      ensures Valid()
      ensures user == RecvOp(Ring32, old(user), size)
      ensures (user.k, len, data) == Engine.Recv(Ring32, kcp.cfg, old(user.k), size) && len == |data|
    {
      hide KcbInv, Engine.Recv, ConfigOk, FrontCount, PeekSize;
      EngineInvariant.RecvKeepsInv(Ring32, kcp.cfg, kcp.View(), size);
      RecvShrinks(kcp.cfg, user.k);
      ReadOneTells(user);
      len, data := kcp.Recv(size);
      user := RecvOp(Ring32, user, size);
    }

    /** Makes or posts a callback if it is set. */
    method Post(e: Event)
      modifies `posted
      ensures posted == old(posted) + Heard(callbacks, [e])
    {
      NothingHeard(callbacks, posted);
      if Hears(callbacks, e) {
        posted := posted + [e];
      }
    }

    // -------------------------------------------------------------------
    // The session's own methods
    // -------------------------------------------------------------------

    /** Close: flushes for the last time when asked, and only once. */
    method Close(lastFlush: bool, now: u32)
      requires Valid()
      modifies this, kcp, kcp.buffer
      ensures Valid() && closed
      ensures user == if !old(closed) && lastFlush then FlushOp(Ring32, old(user), now).0 else old(user)
      ensures posted == old(posted) + Heard(callbacks,
        if old(closed) then [] else if lastFlush then [FlushTx, ConnectionDown] else [ConnectionDown])
    {
      hide KcbInv, FlushOp, ControlBlock.Valid, Heard;
      NothingHeard(callbacks, posted);
      if closed {
        return;
      }
      closed := true;
      if lastFlush {
        var _ := Flush(now);
        Post(FlushTx);
        HeardAppend(callbacks, [FlushTx], [ConnectionDown]);
        assert [FlushTx] + [ConnectionDown] == [FlushTx, ConnectionDown];
      }
      Post(ConnectionDown);
    }

    /** The timer: closes a dead session, flushes a live one, and says when to come back. */
    method UpdateConnectionState(now: u32) returns (again: Option<int>)
      requires Valid()
      modifies this, kcp, kcp.buffer
      ensures Valid()
      ensures again.Some? <==> !old(closed) && !old(user.k.dead)
      ensures again.Some? ==>
        && !closed && user == FlushOp(Ring32, old(user), now).0
        && again.value == Engine.Flush(Ring32, kcp.cfg, old(user.k), now).wait
      ensures again.None? ==> closed && user == old(user)
      ensures posted == old(posted) + Heard(callbacks,
        if old(closed) then [] else if old(user.k.dead) then [ConnectionDown] else [FlushTx])
    {
      hide KcbInv, Engine.Flush, Pack, MoveCount, Heard;
      NothingHeard(callbacks, posted);
      if closed {
        return None;
      }
      if kcp.dead {
        Close(false, now);
        return None;
      }
      var wait := Flush(now);
      Post(FlushTx);
      return Some(wait);
    }

    /**
     Reads one message. It stays in the input buffer, and the user hears of it,
     when it is not empty and the message callback is set.
     */
    method OnReadEvent(size: int)
      requires Valid() && 0 <= size == PeekSize(user.k.rcv.que)
      modifies kcp`rcvNxt, kcp`rcvBuf, kcp`rcvQue, kcp`nrcvBuf, kcp`nrcvQue, kcp`probe, `user, `inputBuffer, `posted
      ensures Valid() && user == RecvOp(Ring32, old(user), size)
      ensures var data := Engine.Recv(Ring32, kcp.cfg, old(user.k), size).2;
        && inputBuffer == old(inputBuffer) + (if callbacks.message then data else [])
        && posted == old(posted) + Heard(callbacks, if |data| > 0 then [Message(data)] else [])
    {
      hide KcbInv, Engine.Recv, PeekSize, RecvOp, Heard;
      NothingHeard(callbacks, posted);
      var len, data := Receive(size);
      assert |data| == 0 ==> inputBuffer + data == inputBuffer;
      if len > 0 && callbacks.message {
        inputBuffer := inputBuffer + data;
      }
      if len > 0 {
        Post(Message(data));
      }
    }

    /** The drain loop after it has read done, with all to be read altogether. */
    ghost predicate Reading(was: Peer, buffer: seq<byte>, before: seq<Event>, done: seq<seq<byte>>)
      reads this
    {
      && ReadPeer(user) == ReadPeer(was) && user.cfg == was.cfg
      && done + TakeAll(was.cfg, user.k).1 == TakeAll(was.cfg, was.k).1
      && inputBuffer == buffer + (if callbacks.message then Flatten(done) else [])
      && posted == before + Heard(callbacks, MessageEvents(done))
    }

    /** One turn of the drain loop. */
    method ReadNext(size: int, ghost was: Peer, ghost buffer: seq<byte>, ghost before: seq<Event>, ghost done: seq<seq<byte>>)
        returns (ghost more: seq<seq<byte>>)
      requires Valid() && 0 <= size == PeekSize(user.k.rcv.que) && Reading(was, buffer, before, done)
      modifies kcp`rcvNxt, kcp`rcvBuf, kcp`rcvQue, kcp`nrcvBuf, kcp`nrcvQue, kcp`probe, `user, `inputBuffer, `posted
      ensures Valid() && Reading(was, buffer, before, more)
      ensures |user.k.rcv.que| + |user.k.rcv.buf| < |old(user.k.rcv.que)| + |old(user.k.rcv.buf)|
    {
      hide KcbInv, Engine.Recv, PeekSize, ControlBlock.Valid, TakeAll, Flatten, MessageEvents, RecvOp, ReadPeer, Heard;
      ghost var p := user;
      ghost var data := Engine.Recv(Ring32, kcp.cfg, p.k, size).2;
      TakeOne(kcp.cfg, p.k, done);
      ReadTurn(p);
      ReadOneTells(p);
      OneMessageHeard(callbacks, buffer, before, done, data);
      OnReadEvent(size);
      more := done + [data];
    }

    /** The loop that takes every complete message after an input. */
    method ReadAll()
      requires Valid() && !closed
      modifies kcp`rcvNxt, kcp`rcvBuf, kcp`rcvQue, kcp`nrcvBuf, kcp`nrcvQue, kcp`probe, `user, `inputBuffer, `posted
      ensures Valid() && user == ReadPeer(old(user))
      ensures var ms := TakeAll(kcp.cfg, old(user.k)).1;
        && inputBuffer == old(inputBuffer) + (if callbacks.message then Flatten(ms) else [])
        && posted == old(posted) + Heard(callbacks, MessageEvents(ms))
    {
      hide KcbInv, Engine.Recv, PeekSize, TakeAll, Flatten, MessageEvents, RecvOp, ReadPeer, Heard, Reading;
      ghost var was, done: seq<seq<byte>> := user, [];
      ReadingStarts();
      while !closed
        invariant Valid() && !closed && Reading(was, old(inputBuffer), old(posted), done)
        decreases |user.k.rcv.que| + |user.k.rcv.buf|
      {
        var size := kcp.PeekSize();
        if size < 0 {
          break;
        }
        done := ReadNext(size, was, old(inputBuffer), old(posted), done);
      }
      ReadingEnds(was, old(inputBuffer), old(posted), done);
    }

    lemma ReadingStarts()
      ensures Reading(user, inputBuffer, posted, [])
    {
      hide TakeAll, ReadPeer;
      NothingTaken(inputBuffer, TakeAll(user.cfg, user.k).1);
      NothingHeard(callbacks, posted);
    }

    lemma ReadingEnds(was: Peer, buffer: seq<byte>, before: seq<Event>, done: seq<seq<byte>>)
      requires Reading(was, buffer, before, done) && PeekSize(user.k.rcv.que) < 0
      ensures user == ReadPeer(was) && done == TakeAll(was.cfg, was.k).1
      ensures inputBuffer == buffer + (if callbacks.message then Flatten(done) else [])
      ensures posted == before + Heard(callbacks, MessageEvents(done))
    {
      hide PeekSize, ReadPeer, TakeAll, Flatten, Heard, MessageEvents;
      ReadTurn(user);
      TakeOne(user.cfg, user.k, done);
    }

    /**
     A packet: what the engine accepts may complete messages, and all of those
     are handed over. A packet the engine rejects hands over nothing and does
     not move the peer's address.
     */
    method ProcessPacketInLoopThread(bytes: seq<byte>, address: string)
      requires Valid()
      modifies this, kcp, kcp.acklist
      ensures Valid() && closed == old(closed)
      ensures kcp.acklist == old(kcp.acklist) || fresh(kcp.acklist)
      ensures user.cfg.mss > 0
      ensures user == if old(closed) then old(user) else PacketPeer(old(user), bytes)
      ensures var r := InputBytes(kcp.cfg, old(user.k), bytes);
        var accepted := !old(closed) && r.ret >= 0;
        var (k, ms) := TakeAll(kcp.cfg, r.k);
        var drained := WaitSnd(k) <= kcp.cfg.sndWnd < WaitSnd(old(user.k));
        && peerAddress == (if accepted then address else old(peerAddress))
        && inputBuffer == old(inputBuffer) + (if accepted && callbacks.message then Flatten(ms) else [])
        && posted == old(posted)
             + Heard(callbacks, if accepted then MessageEvents(ms) + (if drained then [WriteComplete] else []) else [])
    {
      hide KcbInv, TakeAll, ConfigOk, InputBytes, ReadPeer, Heard, MessageEvents, WaitSnd;
      UsableSession();
      NothingHeard(callbacks, posted);
      if closed {
        return;
      }
      ReadPeerTakesAll(ByteInput(user, bytes));
      ghost var ms := TakeAll(kcp.cfg, InputBytes(kcp.cfg, user.k, bytes).k).1;
      var needBefore := NeedsDrain();
      var ret := Input(bytes);
      if ret < 0 {
        return;
      }
      peerAddress := address;
      ReadAll();
      var needAfter := NeedsDrain();
      assert MessageEvents(ms) + [] == MessageEvents(ms);
      if needBefore && !needAfter {
        HeardAppend(callbacks, MessageEvents(ms), [WriteComplete]);
        Post(WriteComplete);
      }
    }

    /** ikcp_need_drain. */
    method NeedsDrain() returns (need: bool)
      requires Valid()
      ensures need == NeedDrain(kcp.cfg, user.k)
    {
      need := kcp.nsndBuf + kcp.nsndQue > kcp.cfg.sndWnd;
    }

    lemma UsableSession()
      requires Valid()
      ensures user.cfg.mss > 0
    {
      HeadRoomOk(kcp.cfg);
    }

    /** ikcp_waitsnd. */
    method Backlog() returns (waitsnd: nat)
      requires Valid()
      ensures waitsnd == WaitSnd(user.k)
    {
      waitsnd := kcp.nsndBuf + kcp.nsndQue;
    }

    /** ikcp_available_wnd_in_bytes, or ikcp_available_sndwnd_in_bytes with the congestion window. */
    method AvailableWindow(useCwnd: bool) returns (bytes: int)
      requires Valid()
      ensures bytes == AvailableBytes(kcp.cfg, user.k, useCwnd)
    {
      hide KcbInv, ConfigOk, U32, SendWindow;
      var wnd;
      if useCwnd {
        wnd := kcp.CalcWnd();
      } else {
        wnd := Min(kcp.cfg.sndWnd, kcp.rmtWnd);
      }
      var waitsnd := kcp.nsndBuf + kcp.nsndQue;
      bytes := U32((if wnd > waitsnd then wnd - waitsnd else 0) * kcp.cfg.mss);
    }

    /** Sends a message the window has room for, and flushes if it can go out at once. */
    method SendAndFlush(message: seq<byte>, now: u32) returns (ok: bool)
      requires Valid() && user.cfg.mss > 0
      modifies this, kcp, kcp.buffer
      ensures Valid() && closed == old(closed) && inputBuffer == old(inputBuffer)
      ensures ok == Accepts(kcp.cfg, old(user.k), message)
      ensures var flush := ok && AvailableBytes(kcp.cfg, old(user.k), true) > 0;
        var p := CallOp(old(user), false, message);
        && user == (if flush then FlushOp(Ring32, p, now).0 else p)
        && kcp.sent == old(kcp.sent) + EncodeGrams(kcp.cfg.conv, if flush then FlushOp(Ring32, p, now).1 else [])
        && posted == old(posted) + Heard(callbacks, if flush then [FlushTx] else [])
    {
      hide KcbInv, ConfigOk, CallOp, CallRet, FlushOp, AvailableBytes, EncodeGrams, ControlBlock.Valid, Heard;
      NothingHeard(callbacks, posted);
      FillingStarts(kcp.cfg.conv, kcp.sent);
      var toWire := AvailableWindow(true);
      var ret := Send(message, false);
      ok := ret == 0;
      if ok && toWire > 0 {
        var _ := Flush(now);
        Post(FlushTx);
      }
    }

    /** The first half of Write: one message, if the backlog allows. */
    method SendOffered(data: seq<byte>, now: u32) returns (written: nat)
      requires Valid() && user.cfg.mss > 0
      modifies this, kcp, kcp.buffer
      ensures Valid() && closed == old(closed) && inputBuffer == old(inputBuffer)
      ensures written == SentOf(old(user), data) <= |data|
      ensures user == SendPeer(old(user), data, now).0
      ensures kcp.sent == old(kcp.sent) + EncodeGrams(kcp.cfg.conv, SendPeer(old(user), data, now).1)
      ensures posted == old(posted) + Heard(callbacks, SendEvents(old(user), data))
    {
      hide KcbInv, ConfigOk, CallOp, FlushOp, Accepts, AvailableBytes, EncodeGrams, Heard;
      written := 0;
      NothingHeard(callbacks, posted);
      HeardAppend(callbacks, FlushEvents(user, data), DoneEvents(user, data));
      FillingStarts(kcp.cfg.conv, kcp.sent);
      if kcp.nsndBuf + kcp.nsndQue <= kcp.cfg.sndWnd {
        var offered := AvailableWindow(false);
        offered := Min(offered, |data|);
        if offered > 0 {
          var ok := SendAndFlush(data[..offered], now);
          if ok {
            written := offered;
            if written == |data| {
              Post(WriteComplete);
            }
          }
        }
      }
    }

    /** The second half of Write: what is left goes in as stream data, whatever the backlog. */
    method AppendRest(rest: seq<byte>, before: nat)
      requires Valid() && user.cfg.mss > 0
      modifies this, kcp
      ensures Valid() && closed == old(closed) && inputBuffer == old(inputBuffer) && kcp.sent == old(kcp.sent)
      ensures user == CallOp(old(user), true, rest)
      ensures var mark := kcp.cfg.sndWnd + kcp.cfg.sndWnd;
        posted == old(posted) + Heard(callbacks,
          if AsInt(|rest|) >= 0 && before < mark <= WaitSnd(user.k) then [HighWaterMark(WaitSnd(user.k))] else [])
    {
      hide KcbInv, ConfigOk, CallOp, CallRet, WaitSnd, ControlBlock.Valid, Heard, AsInt;
      NothingHeard(callbacks, posted);
      AppendSucceedsExactly(kcp.cfg, user.k, rest);
      var ret := Send(rest, true);
      if ret == 0 {
        var waitsnd := Backlog();
        if before < kcp.cfg.sndWnd + kcp.cfg.sndWnd <= waitsnd {
          Post(HighWaterMark(waitsnd));
        }
      }
    }

    /**
     Write: as much as the window allows as one message, flushed at once when
     it can go out, and the rest appended as stream data, both lengths cast to
     int. Nothing is accepted after Close.
     */
    method WriteInLoopThread(data: seq<byte>, now: u32)
      requires Valid()
      modifies this, kcp, kcp.buffer
      ensures Valid() && closed == old(closed) && inputBuffer == old(inputBuffer)
      ensures old(closed) ==> user == old(user) && kcp.sent == old(kcp.sent) && posted == old(posted)
      ensures user.cfg.mss > 0
      ensures !old(closed) ==>
        && user == WritePeer(old(user), data, now).0
        && kcp.sent == old(kcp.sent) + EncodeGrams(kcp.cfg.conv, WritePeer(old(user), data, now).1)
        && posted == old(posted) + Heard(callbacks, WriteEvents(old(user), data, user.k))
    {
      hide KcbInv, ConfigOk, CallOp, EncodeGrams, SendPeer, SentOf, SendEvents, WaitSnd, ControlBlock.Valid, Heard, AsInt;
      UsableSession();
      NothingHeard(callbacks, posted);
      if closed {
        return;
      }
      SendPeerTells(user, data, now);
      var before := Backlog();
      var written := SendOffered(data, now);
      if written < |data| {
        AppendRest(data[written..], before);
      }
      HeardAppend(callbacks, SendEvents(old(user), data), MarkEvents(old(user), data, user.k));
    }
  }
}
