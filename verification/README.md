# KCP and 2048: a verified model

This project models the hard parts of the repository and proves what they are for.

**The KCP engine** (`kcp/ikcp.c`). The control block is modelled twice: as a value with one function per public
call (module Engine and the modules it is built from), and as a class whose methods change its fields, its queues, its
acknowledgement array and its output buffer in place (module Kcp). Every method is proved to do what the function of the
same name says, down to the bytes of each datagram. The functions that compare sequence numbers take the number system
as a parameter: `Ring32`, where numbers wrap and are compared with `_itimediff`, and `Wide`, where they grow without
bound.

* Invariants of one end, for any sequence of calls and any input bytes: Receiver, Sender, EngineInvariant, Congestion,
  Timers, Probing, Endpoint.
* What one end does, over any calls: Arrivals (what input owes), FlowControl (how much a flush sends), RoundTrip (the
  time-out estimator), Resending (what is sent again), Acknowledged (what is not), Growth (how the window opens), Answers
  (window probes); TwoEnds carries these laws over to both ends of a network.
* Two ends and a network that loses, duplicates and reorders: every datagram ever sent stays on record, and an input
  delivers any of them, any number of times, in any order. Connection proves end-to-end safety over unbounded numbers;
  Wraparound and WrappedRuns show that the 32-bit engine is the wrapped image of that machine; ByteRuns brings it to
  bytes; ShortRuns removes the one assumption, on the age of datagrams, for runs that write less than two gigabytes.
* Session and SessionSteps add what a session does with the engine: configuration, the write splitter, the drain loop,
  the state timer; Writing, what a write puts on the wire; WholeMessages, that between sessions no message is empty.
  Envelope adds the nine-byte header with its checksum. IntrusiveQueue models the linked queues.

**The connection tables** (`kcp/kcp_server.cc`, `kcp/kcp_client.cc`). ServerSteps and ClientSteps give each handler as a
step over the tables or the connection state; Server and Client are the objects; KeepAlive and ClientLife follow
entries, attempts and sessions through whole runs; Handshake runs one server and any number of clients together.

**The 2048 player** (`ai/2048/ai_2048.cc`). Grid, SlideSteps and Lands say what a move and a land are; Minimax is the
exhaustive search and the set of replies considered; Placing and FewCandidates count those replies; Ai2048 is the class
with the in-place slide, the recursive flood fill and the alpha-beta search.

`dafny verify dfyconfig.toml` checks everything.

## What turned out not to hold as one might expect

* `best_move_` can be -1 although legal moves exist: a player without a move returns alpha, so a position from which
  every move loses is worth no more than -INF, and no score exceeds that. The exact condition is in `Ai2048.RootMove`,
  a board in `Minimax.LegalMovesButNoBest`. A search of depth one always finds a move, so the answer of
  `GetPlayerBestMove` is still legal.
* A silent pending entry needs a twelfth tick when the first tick comes less than two seconds after it was made.
* A session can leave the server's table without being in time-wait afterwards (`ServerSteps.SessionCanLeaveUnseen`):
  `insert` does not renew an entry that an earlier session of the same id has left, and the same task then forgets it.
* cwnd and incr are in step at the start exactly when mss > 688, that is for mtu 1400 with less than 688 bytes of head
  room: `ikcp_create` sets incr for the default mss and the setters do not rescale it.
* The arrays of twenty candidates in the 2048 search are too short for the empty board, on which thirty-two placements
  tie (`Minimax.EmptyBoardTies`), and long enough for every other (`FewCandidates.TwentySuffice`). A search that starts
  with the player never gets to the empty board with the computer to play (`Grid.MovedHasTile`).
* A session casts the lengths of a write to int: of a write that leaves 2^31 bytes or more for the append a part is
  dropped, and a later write follows a gap (`SessionSteps.HugeWriteLeavesGap`). Every shorter write is accepted whole.
* A peer that writes an empty message makes a session's assertion that a message has bytes fail
  (`WholeMessages.EmptyMessageIsRead`); a session never writes one.
* `KCPSession::Initialize` sets the high-water mark to `snd_wnd`; the parameter `snd_hghwat` is not used.
* A client that connects again keeps the receive time of its earlier session, so the next periodic task can close it at
  once (`ClientSteps.NewSessionIsGivenUp`).
* The receive window of the normal mode is 128, not the 64 its parameters ask for, because `ikcp_wndsize` raises it to
  the largest message.

## Model

| member | source | states |
|---|---|---|
| SerialArith.WrapDiff | kcp/ikcp.c:131-133 | `_itimediff` of two wrapped numbers is their true difference whenever they are less than 2^31 apart |
| SerialArith.DiffShift | kcp/ikcp.c:131-133 | in either number system, distances to a common base subtract; the ordering of section 3.2 of RFC 1982 is sound inside half the range |
| Receiver.ParseDataKeepsInv | kcp/ikcp.c:658-706 | for any segment, `rcv_buf` stays strictly ascending inside [rcv_nxt, rcv_nxt+rcv_wnd), `rcv_queue` stays consecutive up to rcv_nxt-1 and at most rcv_wnd long, and no deliverable head is left behind; in both number systems |
| Receiver.RecvFrontKeepsInv | kcp/ikcp.c:338-409 | a read, successful or not, keeps the same receiver invariant |
| Receiver.FindSlotSpec | kcp/ikcp.c:669-684 | the backward scan reports a repeat exactly when the number is there, and otherwise splits the buffer at the right place |
| Receiver.DrainMovesPrefix | kcp/ikcp.c:387-399 | the drain loop moves a prefix of `rcv_buf`, numbered consecutively from rcv_nxt, and changes nothing else |
| Receiver.BufBounded | kcp/ikcp.c:658-706 | `rcv_buf` never holds more than rcv_wnd segments |
| Sender.ParseUnaKeepsInv | kcp/ikcp.c:544-588 | a cumulative acknowledgement, any number at all, keeps `snd_buf` ascending inside [snd_una, snd_nxt) with snd_una its head, and never moves snd_una back or past snd_nxt |
| Sender.ParseAckKeepsInv | kcp/ikcp.c:544-573 | the same for a selective acknowledgement of any number |
| Sender.ParseFastackKeepsInv | kcp/ikcp.c:590-609 | counting skipped segments changes neither numbers, order nor snd_una |
| Sender.DropBelowIsSuffix | kcp/ikcp.c:575-588 | `ikcp_parse_una` removes exactly the leading segments below una |
| Sender.RemoveIsCut | kcp/ikcp.c:554-573 | `ikcp_parse_ack` removes one segment, the first with that number, or nothing |
| Sender.IndexOfComplete | kcp/ikcp.c:557-569 | on an ordered buffer its early exit loses nothing: giving up means the number is not there |
| Sender.FillKeepsInv | kcp/ikcp.c:980-1005 | numbering keeps the sender invariant, so snd_nxt - snd_una never exceeds the window |
| Sender.FillIsFifo | kcp/ikcp.c:983-1005 | segments leave `snd_queue` in order, with consecutive numbers, and go to the end of `snd_buf` |
| Codec.ParseEncode | kcp/ikcp.c:733-772 | the header parser reads back every segment that `ikcp_encode_seg` writes, and leaves what follows it |
| Codec.PackSpec | kcp/ikcp.c:920-930 | filling datagrams splits, drops and reorders no segment, and every datagram is non-empty and within the room |
| ByteRuns.DecodeEncode | kcp/ikcp.c:733-836 | the parse loop on an encoded list of segments gives exactly that list |
| ByteRuns.FlushDecodes | kcp/ikcp.c:894-1080 | every datagram of a flush is longer than the head room and at most mtu; parsing the bodies in order gives exactly the acknowledgements, then the probes due, then the segments due |
| Fragments.WriteAppends | kcp/ikcp.c:444-514 | `ikcp_write` appends exactly the given bytes in fragments of at most mss, or refuses with -2 and changes nothing, and it refuses exactly when a message would need 128 fragments |
| Fragments.RefusedExactly | kcp/ikcp.c:484-490 | the refusal in bytes: more than 127*mss |
| Fragments.CutCountsDown | kcp/ikcp.c:492-511 | in message mode frg is the number of fragments still to come |
| Fragments.WriteMessage | kcp/ikcp.c:440-514 | in message mode the queue gains exactly one message, the one written |
| Fragments.EnqueueBehind | kcp/ikcp.c:454-481 | behind fragments that have been numbered already, topping up and cutting still leave a run that ends at a message boundary |
| EngineInvariant.InputBytesKeepsInv | kcp/ikcp.c:722-866 | `ikcp_input` on any bytes keeps the sender and receiver invariants, never moves snd_una back or past what was sent, and numbers nothing |
| EngineInvariant.FlushKeepsInv | kcp/ikcp.c:894-1104 | a flush keeps the invariants and leaves at most min(snd_wnd, 65535) numbers outstanding |
| EngineInvariant.WriteKeepsInv | kcp/ikcp.c:444-514 | a write keeps the invariants |
| EngineInvariant.RecvKeepsInv | kcp/ikcp.c:338-409 | a read keeps the invariants |
| Endpoint.EveryStateOk | kcp/ikcp.c:217-1104 | after any sequence of calls with arbitrary input bytes: the queue invariants in every configuration; the congestion relation in either mode; and with nodelay 1 and a clock that does not run back, while the link is alive, every timer in range |
| Endpoint.InputGrowsAtMostTwo | kcp/ikcp.c:838-864 | one `ikcp_input`, in either mode and on any bytes, keeps the queue invariants and the congestion relation, raises cwnd by at most two, and never past rmt_wnd when it raises it |
| Reassembly.PushKeepsRx | kcp/ikcp.c:658-706 | a genuine segment keeps the receiver equal to a piece of the sender's log, and is held afterwards if it was inside the window |
| Reassembly.RecvKeepsRx | kcp/ikcp.c:338-435 | `ikcp_recv` hands over exactly the next message of the log |
| Reassembly.TakeOneMessage | kcp/ikcp.c:358-385 | the fragments merged by a read are one whole message, the next one |
| Reassembly.FullQueueIsReadable | kcp/ikcp.c:414-435 | with rcv_wnd >= 128 and a peer that uses `ikcp_write`, a full `rcv_queue` always has a complete message in front |
| Retention.AckKeepsTx | kcp/ikcp.c:760-815 | acknowledgements the peer could have sent remove only what the peer holds: nothing undelivered is forgotten |
| Retention.FillKeepsTx | kcp/ikcp.c:980-1005 | numbering extends the log by what it numbers, and the new numbers are all in flight |
| Retention.WriteKeepsHistory | kcp/ikcp.c:444-514 | the log and the queue together stay exactly what the user has written |
| Connection.StepKeepsInv | kcp/ikcp.c:722-1104 | one action of either end, over a network that loses, repeats and reorders, keeps the invariant that ties both ends and every datagram ever sent |
| Connection.EveryRunDelivers | kcp/ikcp.c:338-1104 | in every run, over unbounded numbers, each user has read a prefix of what the other has written (message by message in message mode), nothing undelivered is forgotten, and a full queue is readable |
| WrappedRuns.StepWraps | kcp/ikcp.c:131-133 | one action of the 32-bit engine is the wrapped action of the unbounded one: parse_ack, parse_una, parse_data, the fill loop and the whole flush decide the same |
| WrappedRuns.RunWraps | kcp/ikcp.c:131-133 | so does every run in which no datagram is older than 0x7ff00000 numbers |
| WrappedRuns.EveryTimelyRunDelivers | kcp/ikcp.c:338-1104 | on those runs the 32-bit engine is reliable in both directions: reads are a prefix of writes (message by message in message mode), every numbered fragment is in `snd_buf` under its wrapped number, in the peer's `rcv_buf` under its wrapped number, or has reached the peer's `rcv_queue`, a full queue is readable, and what has been read is the messages of the fragments taken |
| ByteRuns.ByteRunDecodes | kcp/ikcp.c:733-836 | a run over encoded datagrams is the run over segments |
| ByteRuns.EveryByteRunDelivers | kcp/ikcp.c:338-1104 | the same over bytes on the wire: prefix, nothing forgotten, full queue readable |
| ShortRuns.EveryShortRunDelivers | kcp/ikcp.c:338-1104 | the same without any assumption on the network's delay, for runs in which neither side writes more than 2^31 - 2^20 bytes (counting one for every call) |
| ShortRuns.ShortRunIsTimely | kcp/ikcp.c:131-133 | in such a run no datagram can be too old |
| Congestion.InitialExactly | kcp/ikcp.c:229-240 | for any mss the relation (cwnd-1)*mss < incr < (cwnd+1)*mss holds of a new block exactly when mss > 688 |
| Congestion.GrowKeeps | kcp/ikcp.c:842-864 | opening the window keeps cwnd >= 1, ssthresh >= 2 and that relation, adds at most two segments and stays within rmt_wnd |
| Congestion.AfterLossKeeps | kcp/ikcp.c:1082-1101 | so do fast retransmission, loss and the floor of one segment, with all 32-bit products exact |
| Growth.GrowOpens | kcp/ikcp.c:842-864 | below ssthresh the window opens by one segment; above it incr grows by a sixteenth of a segment and less than one more, and the window opens exactly when that reaches the next one; never past rmt_wnd |
| Growth.ReachesPeer | kcp/ikcp.c:842-864 | seventeen acknowledgements for each segment of the peer's window open ours all the way to it |
| Growth.InputGrowsExactly | kcp/ikcp.c:838-864 | the window opens exactly on a whole datagram that has moved snd_una forward, towards the window announced by it |
| Timers.UpdateAckInRange | kcp/ikcp.c:528-542 | after any sample rx_rto is in [rx_minrto, 60000] |
| Timers.FlushNeverOversleeps | kcp/ikcp.c:1007-1074 | with nodelay 1, on a live link, after a flush every resendts is strictly ahead, a segment's rto is at most 60000*1.5^(xmit-1) < 2^31, and the returned wait is between 1 and the interval and reaches no resendts |
| Timers.BackOffCapped | kcp/ikcp.c:1027-1034 | one time-out multiplies the rto by at most 1.5, without overflow |
| Probing.WaitInRange | kcp/ikcp.c:934-953 | in any run of calls during which rmt_wnd stays 0, from the first flush on probe_wait is in [7000, 120000] |
| Probing.ProbesKeepComing | kcp/ikcp.c:934-964 | in any run of calls during which rmt_wnd stays 0 and flushes are at most G ms apart, whether the back-off starts in the run or was under way before it, every flush is followed within 120000+G ms by one that has a WASK among the segments it sends |
| Probing.EveryClosedPeriodProbes | kcp/ikcp.c:722-977 | so in every closed period, however it came about: any calls and input bytes before it, on a clock that does not run back |
| Probing.ProbesFollowBackOff | kcp/ikcp.c:934-953 | in any run of calls during which rmt_wnd stays 0, the time from its first flush, or from a probe, to the next probe is 7 s lengthened by half for every probe so far, at most 120 s, and at most G ms more |
| Probing.OpenEndsBackOff | kcp/ikcp.c:950-953 | a flush that finds rmt_wnd open ends the back-off |
| Probing.EveryStateCanStart | kcp/ikcp.c:934-977 | every state reached by calls on a clock that does not run back is one such a run can start from |
| Probing.FlushAsksExactly | kcp/ikcp.c:934-977 | a flush sends a WASK exactly when the back-off says so, and clears both flags |
| Probing.OtherCallsOnlyTell | kcp/ikcp.c:722-836 | calls other than a flush leave the back-off alone and never withdraw a pending announcement |
| Probing.ReopenedIsTold | kcp/ikcp.c:402-406 | after a read that takes a full queue below rcv_wnd, whatever other calls are made in between, the next flush sends WINS |
| Arrivals.InputReads | kcp/ikcp.c:722-866 | on any bytes, the segments that can be read are dealt with one by one, and only a whole datagram counts skips and opens the congestion window |
| Arrivals.InputTells | kcp/ikcp.c:757-820 | after any bytes rmt_wnd is the window of the last segment read, and an answer is due exactly when one was before or a WASK has been read |
| Arrivals.EveryPushIsAcked | kcp/ikcp.c:795-799 | every data segment read that lies in the receive window or before it, repeats too, is acknowledged by the next flush with its number, its time stamp and rcv_nxt, whatever other calls come between |
| Arrivals.AcksAreEchoes | kcp/ikcp.c:795-799 | and nothing else is: after any calls, each acknowledgement owed repeats number and time stamp of a data segment that one of them has read |
| FlowControl.FlushFillsWindow | kcp/ikcp.c:979-1005 | a flush takes fragments from the front of the queue; the numbers in use pass neither snd_wnd, nor rmt_wnd, nor cwnd when congestion control is on, and it stops only at one of these or at the end of the queue |
| FlowControl.EveryFlushHeedsPeer | kcp/ikcp.c:979-1005 | in every run of one end, whatever its input, a flush never takes the numbers in use past the window the peer announced last, and numbers nothing when that is 0 |
| FlowControl.FlushAnnounces | kcp/ikcp.c:884-930 | every segment of a flush announces exactly the room left in `rcv_queue` and acknowledges everything before rcv_nxt, data carries the time of the flush, and probes repeat the last acknowledgement |
| TwoEnds.EndFollowsCalls | kcp/ikcp.c:722-1104 | in any run of two ends over the network each end is what its own calls make it, so that every law of one end holds there |
| TwoEnds.AddedReads | kcp/ikcp.c:733-772 | the other end reads each datagram of a flush whole, as the segments it was filled with |
| Answers.WinsExactly | kcp/ikcp.c:817-820 | between two flushes: the second sends a WINS exactly when a WASK has been read since the first or a read has reopened a full queue |
| Answers.ProbeIsAnswered | kcp/ikcp.c:817-820 | whatever calls other than a flush follow an input that has read a WASK, the next flush sends a WINS with rcv_wnd less the queue length |
| Answers.ProbeOverNetwork | kcp/ikcp.c:817-974 | over two ends: a datagram with a WASK arrives, anything but a flush of that end happens, it flushes; among the datagrams it puts on the network is one with a WINS, and whichever of them arrives gives the prober the room its peer had |
| RoundTrip.FirstSample | kcp/ikcp.c:528-542 | the first sample becomes srtt and half of it rttval; rto is srtt and the larger of four deviations and one interval, within its bounds |
| RoundTrip.NextSample | kcp/ikcp.c:528-542 | a later sample moves srtt an eighth of the way to it and rttval a quarter of the way to their distance, rounded down and never past; rto the same |
| RoundTrip.AckMeasures | kcp/ikcp.c:764-767 | the sample is the time since the time stamp that is echoed, on the 32-bit clock, and one from the future is ignored |
| RoundTrip.OthersMeasureNothing | kcp/ikcp.c:764-767 | no other segment gives a sample |
| RoundTrip.EqualSamplesSettle | kcp/ikcp.c:528-542 | from any estimator, enough equal samples bring srtt within 8 below the sample, rttval below 8, and rto to srtt and one interval |
| RoundTrip.NewEstimatorSettles | kcp/ikcp.c:528-542 | from a new one, srtt is the sample throughout, and rttval comes down to 0 |
| Resending.SentExactly | kcp/ikcp.c:1013-1045 | a segment in flight is sent by a flush exactly when it never has been, its deadline has passed, or it has been skipped fastresend times and sent at most fastlimit times |
| Resending.NewIsSent | kcp/ikcp.c:983-1022 | every segment a flush numbers is sent by it |
| Resending.FlushReschedules | kcp/ikcp.c:1013-1045 | what a flush makes of every segment, in every mode: counters, deadline and time-out after a first sending, a time-out and a hurried one, and no change otherwise |
| Resending.SkippedIsResent | kcp/ikcp.c:590-609 | over calls: a segment in flight, any inputs that do not acknowledge it, then a flush; it is sent exactly when its deadline has passed or, sent at most fastlimit times, enough whole datagrams have acknowledged a later number |
| Resending.FlushReacts | kcp/ikcp.c:1082-1101 | a time-out sets cwnd to 1 and ssthresh to half the window; a hurried segment without one sets ssthresh to half of what is in flight, at least 2, and cwnd to that and fastresend; otherwise nothing changes |
| Resending.WaitIsNext | kcp/ikcp.c:1070-1074 | in any mode the returned wait is the first deadline that is ahead, or the interval if that is less |
| Resending.TimeoutsAreCounted | kcp/ikcp.c:1017-1034 | xmit of the block goes up by one for every passed deadline |
| Resending.DeadExactly | kcp/ikcp.c:1065-1067 | the link is declared dead exactly by the flush that sends some segment for the dead_link-th time or more |
| Acknowledged.AckedIsGone | kcp/ikcp.c:554-588 | an input that acknowledges a number, selectively or cumulatively, leaves no segment with it |
| Acknowledged.NeverAgain | kcp/ikcp.c:983-1074 | after that no call brings the number back and no flush sends it, until the numbers have gone on by a quarter of their range |
| Kcp.ControlBlock.constructor | kcp/ikcp.c:217-282 | a new block and its buffers |
| Kcp.ControlBlock.Write | kcp/ikcp.c:444-514 | the object's fields become what the function of the same name computes: return value and queue, for any length including a negative one |
| Kcp.ControlBlock.ShrinkBuf | kcp/ikcp.c:544-552 | the object's fields become what the function of the same name computes: snd_una |
| Kcp.ControlBlock.ParseAck | kcp/ikcp.c:554-573 | the object's fields become what the function of the same name computes: `snd_buf` after the scan with its two early exits |
| Kcp.ControlBlock.ParseUna | kcp/ikcp.c:575-588 | the object's fields become what the function of the same name computes: `snd_buf` after the loop |
| Kcp.ControlBlock.ParseFastack | kcp/ikcp.c:590-609 | the object's fields become what the function of the same name computes: every segment before the acknowledged one counted once |
| Kcp.ControlBlock.UpdateAck | kcp/ikcp.c:528-542 | the object's fields become what the function of the same name computes: the estimator, in wrapping arithmetic |
| Kcp.ControlBlock.AckPush | kcp/ikcp.c:614-648 | the pending list grows by one entry whether or not the array had to double, and keeps the others |
| Kcp.ControlBlock.ParseData | kcp/ikcp.c:658-706 | the object's fields become what the function of the same name computes: both receive queues |
| Kcp.ControlBlock.PeekSize | kcp/ikcp.c:414-435 | the object's fields become what the function of the same name computes: the size of the front message, or -1 |
| Kcp.ControlBlock.Recv | kcp/ikcp.c:338-409 | the object's fields become what the function of the same name computes: return value, bytes and state, for reading and for peeking |
| Kcp.ControlBlock.ReadSegment | kcp/ikcp.c:733-772 | the decoded and checked header, or the error it ends the call with |
| Kcp.ControlBlock.ProcessSegment | kcp/ikcp.c:757-830 | the object's fields become what the function of the same name computes: one turn of the input loop |
| Kcp.ControlBlock.Input | kcp/ikcp.c:722-866 | the object's fields become what the function of the same name computes: the whole of `ikcp_input`, on any bytes |
| Kcp.ControlBlock.GrowWindow | kcp/ikcp.c:842-864 | the object's fields become what the function of the same name computes: cwnd and incr |
| Kcp.ControlBlock.EncodeSeg | kcp/ikcp.c:872-882 | the bytes written are the header's, and what was before them in the buffer stays |
| Kcp.ControlBlock.PutSeg | kcp/ikcp.c:920-930 | one segment goes into the datagram under construction, after that has been handed over if the segment would not fit; the write pointer never passes mtu and the head room is not touched |
| Kcp.ControlBlock.PutAcks | kcp/ikcp.c:920-932 | every pending acknowledgement is written, in order |
| Kcp.ControlBlock.ScheduleProbe | kcp/ikcp.c:934-953 | the object's fields become what the function of the same name computes: the probing back-off |
| Kcp.ControlBlock.MoveToSndBuf | kcp/ikcp.c:983-1005 | the object's fields become what the function of the same name computes: queue, buffer and snd_nxt |
| Kcp.ControlBlock.Reschedule | kcp/ikcp.c:1016-1043 | the object's fields become what the function of the same name computes: one segment's timers and whether it is sent |
| Kcp.ControlBlock.Transmit | kcp/ikcp.c:1012-1074 | the object's fields become what the function of the same name computes: the whole transmission loop, and the datagrams it fills |
| Kcp.ControlBlock.UpdateCongestion | kcp/ikcp.c:1082-1101 | the object's fields become what the function of the same name computes: cwnd, incr and ssthresh |
| Kcp.ControlBlock.Flush | kcp/ikcp.c:894-1104 | the object's fields become what the function of the same name computes: state, returned wait and the exact bytes of every datagram handed to the output callback |
| Kcp.ControlBlock.FlushAck | kcp/ikcp.c:1354-1391 | the pending acknowledgements go out and nothing else changes |
| IntrusiveQueue.Add | kcp/ikcp.h:165-167 | `iqueue_add` behind any node of a ring inserts there, and the links stay a ring both ways |
| IntrusiveQueue.AddTail | kcp/ikcp.h:169-171 | `iqueue_add_tail` appends |
| IntrusiveQueue.Del | kcp/ikcp.h:173-178 | `iqueue_del` removes one node, clears its links, and leaves the others a ring in the same order |
| IntrusiveQueue.IsEmpty | kcp/ikcp.h:183 | `iqueue_is_empty` holds exactly of a ring of one |
| IntrusiveQueue.ForEach | kcp/ikcp.h:193-199 | following next from the head visits every other node once, in order |
| IntrusiveQueue.Rotate | kcp/ikcp.h:137-155 | a ring read from any of its nodes is a ring |
| SessionSteps.InitializeExactly | kcp/kcp_session.cc:29-69 | a session starts exactly when mtu >= 50 and 0 <= head_room < mtu - 24, and then the engine's assumptions hold exactly when rcv_wnd fits 16 bits |
| SessionSteps.BothModesAreSound | kcp/kcp_session.h:217-239 | both parameter sets with nine bytes of head room start and meet the engine's and the congestion assumptions; normal mode runs with a receive window of 128; fast mode meets the timer assumptions |
| SessionSteps.BothModesAre | kcp/kcp_session.h:217-239 | the two configurations the parameter sets come to, field by field |
| SessionSteps.WriteAddsEachByteOnce | kcp/kcp_session.cc:283-344 | what send, flush and append accept of a write is a beginning of it, each byte once and in order, and all of it exactly when less than 2^31 bytes are left for the append, whose length is cast to int |
| SessionSteps.OfferedIsAcceptedExactly | kcp/kcp_session.cc:307-321 | of what the window offers, the assertion that `ikcp_send` succeeds holds exactly for less than 2^31 bytes, and in message mode for at most 127*mss |
| SessionSteps.AppendSucceedsExactly | kcp/kcp_session.cc:323-331 | the assertion that `ikcp_append` succeeds holds exactly when the cast to int leaves what is not negative |
| SessionSteps.IntWritesAreWhole | kcp/kcp_session.cc:283-344 | a write of less than 2^31 bytes is accepted whole |
| SessionSteps.HugeWriteIsCut | kcp/kcp_session.cc:323-331 | a write of 2^31 + 64*1367 bytes on a new normal-mode session, of which only the offered 64*1367 are accepted |
| SessionSteps.HugeWriteLeavesGap | kcp/kcp_session.cc:283-344 | after it, one more byte is accepted behind a gap: what the session has accepted is no prefix of what its user handed over |
| SessionSteps.ShortWritesAccepted | kcp/kcp_session.cc:300-321 | neither assertion fails for a write of at most 127*mss bytes that fits int |
| SessionSteps.OfferedCanBeRefused | kcp/kcp_session.cc:300-321 | and fails for a write of 128*mss bytes on a new fast-mode session |
| SessionSteps.OfferFitsWindow | kcp/kcp_session.cc:300-311 | the message part of a write never takes the backlog past min(snd_wnd, rmt_wnd) |
| Writing.OfferFillsRoom | kcp/kcp_session.cc:300-311 | a write offers all of itself or as many whole segments as the two windows leave beside the backlog, and nothing while more than a window waits |
| Writing.WriteGoesOut | kcp/kcp_session.cc:300-321 | a message that fits beside the backlog in every window is on the wire when the write returns, every segment of it |
| Writing.WriteWaits | kcp/kcp_session.cc:300-321 | while the backlog fills the narrowest window, the congestion window too, a write only queues |
| Writing.FirstFlight | kcp/ikcp.c:229-240 | the first flush of a new end sends, with congestion control one segment and without it as many as snd_wnd and 128 allow, each with a time-out of 200 ms |
| Session.WriteTells | kcp/kcp_session.cc:300-344 | nothing goes out without the transmit queue being flushed; a write is complete when all of it went into the window; the high-water mark is told with the backlog that has just passed it |
| SessionSteps.TakeAllConserves | kcp/kcp_session.cc:222-228 | the drain loop leaves no complete message, and what it hands over followed by what is still held is what was held |
| SessionSteps.WriteActionsRun | kcp/kcp_session.cc:283-344 | a session's write is its calls on the engine, run one after the other over the network |
| SessionSteps.PacketActionsRun | kcp/kcp_session.cc:195-228 | so is what a session does with a packet: one input and a read for every complete message |
| SessionSteps.ReadPeerTakesAll | kcp/kcp_session.cc:222-228 | reading until no message is complete hands over exactly what the drain loop takes |
| SessionSteps.AcceptedIsPrefix | kcp/kcp_session.cc:283-292 | what a session accepts is the beginning of what its user hands over, because it closes for good, as long as each write is shorter than 2^31 bytes |
| SessionSteps.ClosedExactly | kcp/kcp_session.cc:81-151 | in every run of two sessions one is closed exactly when its user has closed it or a timer has found its link dead; nothing reopens it |
| SessionSteps.EverySessionRunDelivers | kcp/kcp_session.cc:81-344 | end-to-end safety of two sessions that write, receive, flush on their timers, and close when told to or when the link is dead: both directions reliable, no message handed over empty, the bytes handed to one user a prefix of those the other session has accepted, and of those its user handed to Write when each write is shorter than 2^31 bytes |
| WholeMessages.NobodyReadsEmpty | kcp/kcp_session.cc:168-177 | the assertion that a message read has bytes holds in every reliable run in which nobody writes an empty message |
| WholeMessages.EmptyMessageIsRead | kcp/kcp_session.cc:168-177 | and fails against an end that does write one: the engine queues, accepts and announces an empty message |
| ShortRuns.EveryShortSessionRunDelivers | kcp/kcp_session.cc:81-344 | the same without any assumption on the network's delay, for users who write less than a gigabyte each, whose writes all fit int |
| Session.Session.constructor | kcp/kcp_session.cc:29-79 | a new open session on a new control block, at the peer's address, that has told its owner |
| Session.Session.WriteInLoopThread | kcp/kcp_session.cc:283-344 | the new state, the datagrams sent and the callbacks posted are those of the split, with both lengths cast to int; nothing after Close |
| Session.Session.ProcessPacketInLoopThread | kcp/kcp_session.cc:195-252 | an accepted packet moves the peer's address and hands over every complete message, a rejected one neither, and the drain callback is posted exactly when it is set and the backlog fell to the window |
| Session.Session.OnReadEvent | kcp/kcp_session.cc:168-177 | one message is read; it stays in the input buffer, and the user hears of it, when it is not empty and the message callback is set |
| Session.Session.ReadAll | kcp/kcp_session.cc:222-228 | the drain loop reads every complete message |
| Session.Session.UpdateConnectionState | kcp/kcp_session.cc:116-135 | a dead session closes, a live one flushes and comes back after the wait the flush returned |
| Session.Session.Close | kcp/kcp_session.cc:81-103 | closing flushes when asked and happens once |
| Envelope.ComputeAdler32 | kcp/kcp_packets.cc:257-262 | the running checksum is the one of section 2.2 of RFC 1950, given there as two sums modulo 65521 |
| Envelope.SealRoundTrip | kcp/kcp_packets.cc:238-274 | reading a sealed packet succeeds with the same type and id and leaves exactly the body |
| Envelope.OnlySealedIsRead | kcp/kcp_packets.cc:238-274 | a packet is accepted if and only if sealing some type, id and body makes it |
| Envelope.OneByteChangeIsCaught | kcp/kcp_packets.cc:257-266 | changing any single byte of a sealed packet gives INVALID_CHECKSUM |
| Envelope.ChecksumSeesOneByte | kcp/kcp_packets.cc:257-266 | replacing one byte always changes the checksum |
| Envelope.HeadRoomIsFilled | kcp/kcp_client.cc:371-392 | with nine bytes of head room a sealed datagram of a flush is at most mtu long, and reading it succeeds with its type, its session and its body |
| Envelope.PendingSendPacket.WritePublicHeader | kcp/kcp_packets.cc:321-339 | the first nine bytes of the buffer become the header, everything after them stays, and a buffer that is too short is left alone |
| Envelope.PendingSendPacket.WriteTo | kcp/kcp_packets.cc:38-60 | the nine bytes in little-endian order |
| Envelope.PendingSendPacket.WriteChecksum | kcp/kcp_packets.cc:62-73 | the first four bytes, and no more |
| Envelope.ReceivedPacket.ReadBytes | kcp/kcp_packets.cc:169-184 | all the bytes asked for or none, and the position moves by as many |
| Envelope.ReceivedPacket.ReadPublicHeader | kcp/kcp_packets.cc:238-274 | the code, header and remaining data of every packet, including short and corrupted ones |
| Grid.TableIsNeighbour | ai/2048/ai_utils.h:43-65 | the adjacency table is the arithmetic neighbour in each direction, and -1 at the edge |
| Grid.NeighbourBack | ai/2048/ai_utils.h:43-65 | being neighbours is mutual, in opposite directions |
| Grid.MoveConservesSum | ai/2048/ai_2048.cc:199-232 | a move conserves the sum of 2^tile |
| Grid.MovedHasEmpty | ai/2048/ai_2048.cc:199-232 | a move that changes the board leaves an empty cell |
| Grid.MovedHasTile | ai/2048/ai_2048.cc:199-232 | and a tile, so the computer never replies to the empty board in a search that starts with the player |
| Grid.StuckCannotMove | ai/2048/ai_2048.cc:199-232 | a full board without equal neighbours cannot move |
| SlideSteps.PlacedIsMerge | ai/2048/ai_2048.cc:214-227 | placing tiles one by one with a merged mark is dropping zeros and merging each equal adjacent pair once from the wall |
| SlideSteps.MergeTurn | ai/2048/ai_2048.cc:214-222 | a turn that merges keeps every line equal to the partial slide of what it was |
| SlideSteps.SlideTurn | ai/2048/ai_2048.cc:223-227 | so does a turn that slides, and it reports a change exactly when the tile moved |
| SlideSteps.SlidingEnds | ai/2048/ai_2048.cc:199-232 | when all turns are done every line is slid, and a change was reported exactly when the board differs |
| Ai2048.AI2048.GetTargetPos | ai/2048/ai_2048.cc:99-106 | the last empty cell on the way to the wall and the first tile or edge beyond it |
| Ai2048.AI2048.TryMove | ai/2048/ai_2048.cc:199-232 | in place, every line from the wall becomes its slide, and true is returned exactly when the board changed |
| Lands.SameComponent | ai/2048/ai_2048.cc:66-73 | connection is an equivalence: connected cells have one component |
| Lands.MarksComponent | ai/2048/ai_2048.cc:66-73 | what the flood fill marks from an unmarked cell is its component, no more and no less |
| Lands.NewLand | ai/2048/ai_2048.cc:75-87 | and marking it is counting one more component |
| Ai2048.AI2048.Mark | ai/2048/ai_2048.cc:66-73 | the recursive fill terminates, marks only connected cells of the value, and leaves none of their neighbours out |
| Ai2048.AI2048.GetLandNum | ai/2048/ai_2048.cc:75-87 | the result is the number of connected components of equal non-empty tiles |
| Ai2048.AI2048.EvalSmoothnessValue | ai/2048/ai_2048.cc:108-122 | minus the gaps to the nearest tiles to the right and below |
| Minimax.CandidatesSpec | ai/2048/ai_2048.cc:234-261 | the candidates are exactly the placements no other placement beats, there is one whenever a cell is empty, and at most two to a cell |
| Placing.ScoreIs | ai/2048/ai_2048.cc:242-248 | a placement's score is the board's own plus the unevenness it adds to its row and column, plus one unless it joins an equal neighbour |
| Placing.TieSeesBoth | ai/2048/ai_2048.cc:242-248 | a one and a two are worth the same in a cell only if its row and column hold nothing else, or both a one and a larger tile |
| FewCandidates.TwentySuffice | ai/2048/ai_2048.cc:234-261 | the twenty entries of the program's arrays suffice for the candidates of a board exactly when it holds a tile |
| Minimax.EmptyBoardTies | ai/2048/ai_2048.cc:234-261 | on the empty board there are thirty-two |
| Minimax.WonIs2048 | ai/2048/ai_2048.cc:124-130 | a board is won exactly when some tile shows 2048 |
| Ai2048.AI2048.GetCandidateSet | ai/2048/ai_2048.cc:234-261 | those candidates in order, in two arrays of twenty that have room for them, with the board put back |
| Ai2048.ArrayMax | ai/2048/ai_utils.h:94-104 | the maximum |
| Ai2048.Lg2 | ai/2048/ai_utils.h:78-87 | the largest k with 2^k <= n |
| Minimax.PlayerLooks | ai/2048/ai_2048.cc:270-283 | one turn of the player's loop keeps alpha equal to the best value so far seen through the window, or cuts off soundly |
| Minimax.ComputerLooks | ai/2048/ai_2048.cc:284-292 | the same for the computer's loop and beta |
| Ai2048.AI2048.MiniMaxSearch | ai/2048/ai_2048.cc:263-295 | for alpha < beta and any depth, the score and the exhaustive minimax value agree inside the window; best_move_ is the first direction that attains the maximum, the first that reaches beta on a cut-off, or -1; the search terminates and leaves the board alone |
| Ai2048.RootMove | ai/2048/ai_2048.cc:263-295 | from the root window, with evaluations strictly inside it, best_move_ is -1 exactly when every legal move is lost, and otherwise the first best direction |
| Minimax.LegalMovesButNoBest | ai/2048/ai_2048.cc:263-295 | a board with two legal moves on which a search of depth two finds none, whatever the evaluation |
| Minimax.ValueInside | ai/2048/ai_2048.cc:263-295 | with evaluations strictly inside the root window every value is, except that of a lost player |
| Ai2048.AI2048.GetPlayerBestMove | ai/2048/ai_2048.cc:297-313 | on a board that is not won the answer is a legal move whenever there is one and 0 otherwise; on a won board it is the move best_move_ was left with, or 0 |
| ServerSteps.FirstFreeSpec | kcp/kcp_server.cc:384-406 | an id that is issued is neither live nor in time-wait, and none is issued exactly when all draws fail |
| ServerSteps.RunKeepsTables | kcp/kcp_server.cc:123-603 | after any packets, ticks and closings, sessions and idle times have the same keys and no pending entry has more than ten retries |
| ServerSteps.LeavingWaitsExactly | kcp/kcp_server.cc:149-199 | a session that leaves is in time-wait after the step, except exactly when the periodic task finds an old entry of its id that has just run out |
| ServerSteps.SessionCanLeaveUnseen | kcp/kcp_server.cc:149-199 | a run in which that happens, with the periodic task every two seconds |
| ServerSteps.SilentEntryDisappears | kcp/kcp_server.cc:123-147 | in every run in which its client stays silent and ticks are two seconds or more apart, whatever else happens, a new entry is gone after eleven ticks exactly when the first came two seconds or more after it was made, after twelve always, and after ten never |
| ServerSteps.SilentEntryFollowsTicks | kcp/kcp_server.cc:123-147 | in every run without a packet from its address an entry depends on the ticks alone |
| KeepAlive.SessionHistory | kcp/kcp_server.cc:483-515 | in every run the idle time of a session is the time of its last PING, or of its opening when there was none; and it is closed exactly when it has been closed since |
| KeepAlive.RemovedExactly | kcp/kcp_server.cc:149-175 | in every run a session leaves with the next event exactly when that is a RST for its id, or a periodic task and the session is closed or its last PING or opening is 120 s or more ago |
| KeepAlive.PingingStays | kcp/kcp_server.cc:149-175 | a session whose client pings less than 120 s before every periodic task, and that is neither reset nor closed, stays, whatever else happens |
| KeepAlive.EntryHistory | kcp/kcp_server.cc:431-481 | in every run the retries of a pending entry are the SYNs sent to its client less one, all with one id, the last at the time it keeps |
| KeepAlive.EntryStep | kcp/kcp_server.cc:431-680 | when one event removes an entry, sends its SYN again or makes a new one, exactly |
| KeepAlive.LiveIsServed | kcp/kcp_server.cc:483-680 | the client of a live session is never reset by what it sends, and its PING gets a PONG |
| KeepAlive.GoneIsReset | kcp/kcp_server.cc:483-680 | the client of a session that has gone is reset whatever it sends, and nothing changes |
| KeepAlive.SynIsAnswered | kcp/kcp_server.cc:431-481 | a SYN is answered by the SYN of the entry it leaves, and reset exactly when that has been retried ten times or no id is free |
| KeepAlive.AckIsReset | kcp/kcp_server.cc:517-579 | an ACK is reset exactly when it names neither the id offered to its sender nor, with no offer open, a session; otherwise there is a session of its id afterwards |
| KeepAlive.DataIsHanded | kcp/kcp_server.cc:642-680 | data is handed to the session it names exactly when there is one or its sender is connecting, and reset otherwise |
| KeepAlive.WaitHistory | kcp/kcp_server.cc:149-199 | in every run an id in time-wait is that of a session that left at the time it keeps |
| KeepAlive.WaitStep | kcp/kcp_server.cc:149-199 | an id comes into time-wait exactly when its session leaves, and goes exactly by a periodic task two minutes later |
| Server.KCPServer.GenerateSessionId | kcp/kcp_server.cc:384-406 | the first usable of twenty draws |
| Server.KCPServer.ProcessSynPacket | kcp/kcp_server.cc:431-481 | the four tables and the packets sent, on every branch |
| Server.KCPServer.ProcessPingPacket | kcp/kcp_server.cc:483-515 | the same for PING |
| Server.KCPServer.ProcessAckPacket | kcp/kcp_server.cc:517-579 | the same for ACK |
| Server.KCPServer.ProcessRstPacket | kcp/kcp_server.cc:581-603 | the same for RST |
| Server.KCPServer.ProcessDataPacket | kcp/kcp_server.cc:642-680 | the same for DATA, which can open a session under the id in its own header, and the session the packet is handed to |
| Server.KCPServer.RunPeriodicTask | kcp/kcp_server.cc:123-200 | the three loops together, in whatever order each goes through its map |
| ClientSteps.StepKeepsClient | kcp/kcp_client.cc:97-228 | PENDING goes with an attempt and CONNECTED with a session, an attempt has at most thirty retries, and a closed client that may reconnect has a timer |
| ClientSteps.OnlySynConnects | kcp/kcp_client.cc:403-452 | the only way into CONNECTED is a SYN received in PENDING, whose id the session takes and acknowledges |
| ClientSteps.OldReceiptCloses | kcp/kcp_client.cc:115-124 | a client that has just connected again is closed by its next periodic task exactly when the last packet of its earlier session is two minutes old |
| ClientSteps.NewSessionIsGivenUp | kcp/kcp_client.cc:115-124 | a run in which that happens, with the periodic task every two seconds |
| ClientSteps.RunKeepsClient | kcp/kcp_client.cc:97-228 | the invariant of a step, over every run |
| ClientLife.ConnectedHistory | kcp/kcp_client.cc:403-452 | in every run a connected client was connected by one SYN, whose id and time the session keeps, and is closed exactly when it has been closed since |
| ClientLife.HeardHistory | kcp/kcp_client.cc:469-511 | the receive time is that of the last PONG or data on any session |
| ClientLife.SessionEndsExactly | kcp/kcp_client.cc:113-133 | in every run a session ends exactly by a disconnect, a RST, or a periodic task that finds it closed or the last sign of the server two minutes old; one that goes on pings at every task from five seconds after the connection on |
| ClientLife.AttemptHistory | kcp/kcp_client.cc:97-113 | in every run the retries of an attempt are the SYNs it has sent less one, the last at the time it keeps |
| ClientLife.AttemptEndsExactly | kcp/kcp_client.cc:97-113 | an attempt ends exactly by a SYN, a RST, a disconnect, or a periodic task after thirty-one SYNs; until then a task sends one more exactly when the last is two seconds old |
| ClientLife.DelayGrows | kcp/kcp_client.cc:178-192 | in every run the delay before the n-th return is half a second times n, at most three |
| ClientLife.AnswersExactly | kcp/kcp_client.cc:403-511 | a client acknowledges exactly the SYN of the session it then has, resets any other and every sign of a server when it has none, and answers nothing else |
| ClientLife.SendsUnderId | kcp/kcp_client.cc:379-391 | the user's data goes out under the id of the session, and only while there is one |
| Client.KCPClient.Connect | kcp/kcp_client.cc:36-87 | the new state and what is sent |
| Client.KCPClient.BuildSession | kcp/kcp_client.cc:136-148 | the new state and what is sent |
| Client.KCPClient.ResetSession | kcp/kcp_client.cc:150-194 | the new state, and the delay before the next attempt; a timer is set whenever the client may come back |
| Client.KCPClient.RunPeriodicTask | kcp/kcp_client.cc:97-134 | the new state and what is sent, on every branch |
| Client.KCPClient.ProcessSynPacket | kcp/kcp_client.cc:403-452 | the new state and what is sent; a session that exists keeps its id, and a new one takes the packet's |
| Client.KCPClient.ProcessRstPacket | kcp/kcp_client.cc:454-467 | the new state |
| Client.KCPClient.HandleReconnectTimer | kcp/kcp_client.cc:188-191 | the new state and what is sent; the client is no longer closed |
| Client.KCPClient.ProcessPongPacket | kcp/kcp_client.cc:469-489 | the time of the last packet, or a RST when there is no session |
| Client.KCPClient.ProcessDataPacket | kcp/kcp_client.cc:491-511 | the same, and whether the packet is handed to the session |
| Client.KCPClient.Disconnect | kcp/kcp_client.cc:197-230 | the new state, and a RST when connected |
| Handshake.StepKeepsWorld | kcp/kcp_server.cc:384-680 | one move of the server, of a client or of the network keeps the invariant that ties them |
| Handshake.EveryRunIsIssued | kcp/kcp_server.cc:384-680 | over a network that makes nothing up, a connected client's id was issued to its own address, and every session's id to the address that opened it |
| Handshake.HandshakeConnects | kcp/kcp_server.cc:431-579 | from every world: a closed client not pending at the server whose packets arrive and are answered is connected after one exchange, under the id drawn, and the server has the session |
| Handshake.PingIsAnswered | kcp/kcp_server.cc:483-515 | a PING on a session both ends have renews it at the server, and its PONG renews it at the client |

## Left out

* Sockets, batched sends and receives, event loops, threads, timers, logging and the allocator: time is a parameter,
  each handler is one atomic step, callbacks do not call back in, and allocation does not fail.
* `ikcp_update` and `ikcp_check`: the sessions call `ikcp_flush` directly.
* The four queues of the class `Kcp.ControlBlock` are sequences that its methods reassign. That the links behave as such
  sequences is proved separately in IntrusiveQueue; that a segment is the same heap object before and after it is moved
  is not modelled.
* A queued segment's conv, cmd, wnd, ts and una fields: they are only read right after the flush has written them.
* The compile-time option FASTACK_CONSERVE and the path for a null buffer.
* Reconfiguration while a session runs: mtu, head room and windows are set once, in the order of
  `kcp/kcp_session.cc:39-63`.
- Timers.FlushNeverOversleeps: covers nodelay 1 only; with nodelay 0 an rto at least doubles with every time-out and no bound below 2^31 follows.
- Endpoint.EveryStateOk: the congestion part needs mss > 688 and (65538 + fastresend) * mss < 2^31, so that the byte count of the largest window fits; both parameter sets of the program meet this, a fastresend of more than a million at mtu 1400 does not.
- Probing.ProbesKeepComing: flushes are taken to be at most 2^30 ms (twelve days) apart, so that time stamps do not lap.
- WrappedRuns.EveryTimelyRunDelivers: assumes that no datagram is delivered after 0x7ff00000 newer numbers have been used, a little less than half the sequence space, which leaves room for both windows; ShortRuns.EveryShortRunDelivers needs no such assumption.
- ShortRuns.EveryShortSessionRunDelivers: counts every byte twice, because a message that is refused is offered again as stream data.
- SessionSteps.OfferedIsAcceptedExactly: the program's assertions are modelled as facts to prove or refute, not as aborts; a refused or empty message carries on as in a build without assertions.
- Session.Session.WriteInLoopThread: the address that goes with each datagram handed to the output callback is not recorded.
- Ai2048.AI2048.TryMove: tiles are unbounded integers; by `Grid.MoveConservesSum` a tile of 127 is out of reach of any game.
- Ai2048.AI2048.MiniMaxSearch: the evaluation is any function from boards to real numbers; its floating-point weights and the monotonicity term are not modelled.
- Ai2048.AI2048.GetCandidateSet: demands a cell that is empty, which `ArrayMax` asserts, and one that is not, without which the program writes past its arrays; every search that starts with the player meets both.
- Ai2048.AI2048.GetPlayerBestMove: the clock is replaced by the number of searches it leaves time for.
- Handshake.EveryRunIsIssued: assumes packets are not made up; for arbitrary packets the server can hold a session under an id it never issued, because a DATA packet opens one under the id in its own header.
- Server.KCPServer.ProcessDataPacket: says which session gets the packet; what that session does with it is the subject of module Session.
* Setting `reconnect_enabled_` after construction, ICMP error reports, and the pending-error fields.
* `AddRandTile`, `AddComputerMove`, `GetAllTiles` and printing in the 2048 player.
* The relay, the protobuf dispatcher, the UDP socket wrapper and the utilities: input, output and library code.
