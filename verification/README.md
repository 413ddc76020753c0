# Model of a user-space TCP stack

A Dafny model of the parts of this user-space TCP stack that move bytes and keep its data
structures, with proofs that hold for all inputs, all runs and all interleavings.

The project has six parts. Each starts from value-level definitions of what the code is for and
ends in imperative classes and methods that follow the C code branch by branch.

**Byte-stream transport.** `SeqArith` relates wrapping 32-bit sequence numbers to unbounded stream
positions. `SendBuffer` is the compacting send buffer, `Reassembly` the receive buffer with its
linked fragment list over real heap nodes (`Spans` holds the mathematics of that list), `Sender`
the flush loop, acknowledgement processing and timeouts (`Segments` says what one flush may put on
the wire), `Receiver` the acceptance of payload and reads. `EndToEnd` is an abstract machine of a
writing and a reading application, both ends and a network that loses, repeats and reorders
segments and acknowledgements without limit; `Transfer` shows that every call on the concrete
buffers is a step of that machine, so that its theorems hold of the arrays, and that from any state
the calls can bring the transfer to its end (`Transfers.Transfer.Finish`). Stream positions occur as
ghost parameters: `pos` stands for the position behind a sequence number on the wire. Every 32-bit
number has a position within 2^31 of any given one, so that the bounds on `pos` say which one is
meant; for a segment or acknowledgement that is really older than that they are assumptions.

**Red-black tree.** `RbSpec` describes subtrees and the rest of the tree around them as values and
proves every rotation and recolouring case on these; `RbShape` ties the values to linked nodes with
parent pointers; `RbTree` is the code of the macros as generated for the epoll interest set. `Epoll`
builds the poll object on it.

**Lock-free ring.** `StreamRing` is a state machine whose steps are the single loads and stores of
`_head`, `_tail` and the slots by one producer and one consumer.

**Connection and scheduling.** `SchedLists` has the control, send, acknowledgement, retransmission,
timewait and timeout lists with their flags and counters, and a log of the packets that the device
has taken. `Lifecycle` has the arcs of the state diagram, what one event may do to a connection, and
the whole connection as a value (`Whole`): every operation states the new value as a function of the
old one, and what these functions mean is proved about values. `Sending` sends one packet,
`ControlPass`, `AckPass` and `SendPass` are the three list writers, `Scheduling` the timer checks,
`Connection` the segment handlers, resets and API requests. `Stack` has the passes and checks with
all lists as values. `ConnectionRun` drives all of these through any sequence of events and proves
what holds on whole runs. There the byte-level work of a segment or a flush enters as a parameter
(`DataPath`, `FlushPlan`) that stands for what the transport part computes; `DataPass` joins the two
for the flush, `SegmentPass` for the payload and FIN of a segment.

**Memory pool.** `MemPool` has the run-length free list whose headers live in free memory.

**Arithmetic kernels.** `Checksum` is the Internet checksum as sender and verifier see it on hosts
of either byte order; `RssHash` and `AddressPool` are the cached Toeplitz hash and the address pools
that depend on its symmetry. `Common` has what several parts need.

Standards referred to: RFC 9293 (sections 3.1, 3.3.2, 3.4, 3.8.6 and 3.10.7.4), RFC 5681 (sections
2, 3.1 and 3.2), RFC 1071 (sections 1 and 2).

## Where the code departs from its evident intent

The model keeps what the code does; each departure has a statement of exactly when it matters.

- `src/user_buffer.c:639-643`: the compiled branch sets `head_offset = len`, the disabled one adds.
  Both are modelled by the constant `addOffset`. Everything about sequence numbers holds for both;
  the bytes that remain after a read are right for the compiled branch if and only if
  `head_offset` was 0 or nothing remains (`Reassembly.CompiledRemoveKeepsBytes`, with a run in
  `Reassembly.ReadThree`). The end-to-end part uses the adding branch.
- `src/user_tcp.c:1296`: the assigned constant is 0, the code of CLOSED, where the trace names
  TIME_WAIT. `Connections.FinWait1DepartsIff` says for which segments this departs from the standard.
- `src/user_tcp.c:1701`: `snd_nxt` is set back to an acknowledgement without a comparison with
  `snd_una`. `Senders.Sender.ProcessAck` says for which state and segment the order of the two is
  lost: a third duplicate that is older than `snd_una`; `Senders.Sender.FlushSendbuffer` says what
  follows, a failing assertion if data is queued, and `Senders.StaleDuplicates` is a run into it.
  `src/user_tcp.c:1094` takes over the number of a SYN in ESTABLISHED in the same way
  (`Senders.Sender.TakeSyn`, with a run in `Senders.SynThenFlush`).
- `src/user_tcp.c:1882-1889`: the peer window is taken from every segment that passes the window test,
  old ones included, before `user_tcp_process_ack` asks whether the segment is newer.
  `Senders.Sender.TakeSegment` says when the window then differs from what RFC 9293 prescribes, and
  `Senders.LateSegmentCloses` shows it.
- `src/user_tcp.c:1771-1779`: slow start computes in 32 bits after testing for one segment only
  (`Senders.GrowthIsBounded`).
- `src/user_tcp.c:2470`: with `snd_nxt` behind the last byte, as after a FIN, `buffered_len` wraps
  around (`Senders.Sender.BufferedIff`).
- `src/user_tcp.c:1620-1670`: the right-edge test of a duplicate adds the window to the peer's
  sequence number before and to our acknowledged number afterwards
  (`Senders.SameEdgeNeedsEqualNumbers`).
- `src/user_tcp.c:1523`: the initial window of 14600 bytes is replaced by the buffer's free space
  at the first payload, so that the right edge can retreat once
  (`Receivers.InitialWindowIsTakenBack`).
- `src/user_epoll_rb.c:215-246`: deleting a ready item leaves it on the ready list; consistency is
  kept if and only if the item was not ready (`Epoll.EventPoll.CtlDel`).
- `src/user_tcp.c:981-994`: a stream without a socket is destroyed after the handshake and then put
  on lists; the model stops there and reports it (`Connections.HandleSynSent`).
- `src/user_tcp.c:1018` ends the program on an unexpected acknowledgement, and `src/user_timer.c`
  has assertions that can fail; both are results of the model (`Connections.HandleSynRcvd`,
  `Scheduling.HandleRto`, `Scheduling.CheckRtmTimeout`), with the exact condition. One is met because
  the inactivity check closes a stream and leaves its retransmission timer running
  (`Runs.IdleThenTimeout`), or because a reset by the application does (`Runs.ResetThenTimeout`; no
  code here fills the queue that the reset is taken from).
- `src/user_timer.c:430-432`: a scan that has counted fewer streams than it may handle ends without
  advancing the wheel, while `AddtoRTOList` files a timer under its deadline modulo 3000. The caller
  passes 1024, so that on all such runs the hand stays at slot 0 (`Runs.Drive`) and the timers of all
  other slots are never looked at (`Scheduling.CheckRtmTimeout`).
- `src/user_mempool.c:36` rounds the number of chunks up, so the last one can reach beyond the
  region (`MemPools.LastChunkFits`).
- `src/user_tcp.c:2278`: the internal close queue is filled but never drained
  (`Runs.PutAsideIsLost`).

## Model

| member | source | states |
|---|---|---|
| EndToEnd.StepKeepsInv | src/user_tcp.c:1459-1815 | Every step (write, send, timeout, arrival of any packet ever sent, acknowledgement, arrival of any acknowledgement ever sent, read) keeps: both ends agree with one byte stream, nothing is acknowledged before it is received; written, read, acknowledged and receivable data never shrink |
| EndToEnd.RunsDeliver | src/user_tcp.c:1459-1815 | On every run, with loss, duplication and reordering: what was read is a prefix of what was written, and written = read + mergeable bytes of the receiver + the part of the send buffer from there on; nothing read is ever taken back |
| EndToEnd.InvDelivers | src/user_tcp.c:1609-1815 | The conservation equation above holds in every state that satisfies the invariant, so no byte is released by the sender before the receiver has it |
| Transfers.Transfer.constructor | src/user_api.c:34-126 | A new connection starts in the initial state of the abstract machine |
| Transfers.Transfer.Conserved | src/user_api.c:34-126 | The delivery theorem read off the two real buffers: the application has a prefix of what was put into the send buffer, and the rest is in the reassembly buffer or still in the send buffer |
| Transfers.Transfer.AppWrite | src/user_api.c:82-126 | A write through the send buffer is a Write step of the abstract machine |
| Transfers.Transfer.Flush | src/user_tcp.c:2421-2532 | A flush is a Send step: every segment it emits carries the bytes that belong at its sequence number |
| Transfers.Transfer.Timeout | src/user_timer.c:184-317 | A retransmission timeout is a StartOver step and makes the flush loop applicable again, as long as fewer than 16 retries have been used; after that it gives the connection up and changes nothing |
| Transfers.Transfer.Deliver | src/user_tcp.c:1459-1559 | Processing any segment ever sent, at any time, is an Arrive step and never moves the right edge of the settled window back; the number acknowledged advances if and only if the segment brings the next bytes in order and fits window and buffer, and then to its end at least |
| Transfers.Transfer.EmitAck | src/user_tcp.c:595-619 | The acknowledgement number sent is the receiver's position: an Acknowledge step; its window field announces the receive window |
| Transfers.Transfer.AckArrives | src/user_tcp.c:1609-1815 | Processing any acknowledgement ever sent, however old, with any window, is an AckArrive step; a new one releases the bytes before it and gives all retries back |
| Transfers.Transfer.AppRead | src/user_api.c:34-80 | A read is a Read step: the application gets exactly the next bytes of the stream, and the right window edge advances by as many |
| Transfers.Transfer.Finish | src/user_timer.c:238-317 | Nothing is lost for good: from every state, with a retry left, room for payload in a segment and a peer window that is open and not beyond the buffer, rounds of timeout, flush (one packet), arrival, read and acknowledgement end, and then the application has exactly what was written and all of it is acknowledged |
| Transfers.Transfer.Reopen | src/user_api.c:58-77 | A closed window opens again: after a read the next acknowledgement gives the sender a window that is open and that the receiver can store, whatever the window was before |
| Transfers.Transfer.Resend | src/user_timer.c:238-317 | After a timeout a flush that may send one packet sends the first unacknowledged bytes, no more than a segment and the window take |
| Transfers.Transfer.Confirm | src/user_tcp.c:595-619 | With everything read the acknowledgement reopens the sender's window to a size that the receiver can store, and gives all retries back |
| Transfers.PacketsAreGenuine | src/user_tcp.c:2454-2526 | The packets of one flush lie between the old and the new send position and carry the stream's bytes |
| Transfers.SendIsStep | src/user_tcp.c:2454-2526 | A run of contiguous segments of the flush loop is a step of the abstract sender |
| Transfers.DeliverIsStep | src/user_tcp.c:1465-1532 | What process_payload makes of a segment is a step of the abstract receiver |
| Transfers.ReadIsStep | src/user_api.c:42-79 | What copy_to_user does is a step of the abstract receiver |
| SeqArith.OrderAgrees | include/user_tcp.h:58-62 | Less than 2^31 apart, all five wrapping comparisons agree with the order of the unbounded stream positions |
| SeqArith.MinMaxAgree | src/user_buffer.c:471-489 | In the same range GetMinSeq and GetMaxSeq give the number of the smaller and the larger position |
| SeqArith.HalfwayIsAmbiguous | src/user_buffer.c:471-489 | At a distance of exactly 2^31 the bound is tight: the helpers answer by numeric value, and each number is less than the other |
| SeqArith.LowWord | src/user_buffer.c:107 | A 64-bit counter taken modulo 2^32 continues the sequence numbers |
| SeqArith.WindowSurvives | src/user_tcp.c:616-617 | What the peer makes of an announced window (lines 1882-1889) is never more than the window, and it is zero if and only if the window is below the unit of the scale |
| Spans.PutCanonical | src/user_buffer.c:564-618 | Inserting an interval into a sorted, disjoint, non-touching list gives such a list again |
| Spans.PutCovers | src/user_buffer.c:564-618 | ... that covers exactly the old positions and those of the interval |
| Spans.CanonicalUnique | src/user_buffer.c:564-618 | Only one such list covers a given set of positions, so the result of the traversal is determined by the bytes received |
| Spans.PutFormula | src/user_buffer.c:565-595 | Cascaded merging: where the loop stops, the skipped prefix, one joined interval and the untouched suffix are the inserted list |
| Spans.PutReached | src/user_buffer.c:565-595 | The loop invariant of the traversal: skipping and swallowing elements one by one approaches the inserted list |
| Spans.Pass | src/user_buffer.c:588-594 | The two stop conditions are right: an element that does not merge lies behind everything joined so far, or before the new data |
| Spans.RunIsMaximal | src/user_buffer.c:620-624 | The readable run at the head covers all its positions and cannot be extended by one |
| Spans.PutRun | src/user_buffer.c:620-624 | A put never shortens the readable run |
| Spans.CutCovers | src/user_buffer.c:650-673 | Taking n bytes off the first run leaves the same list of positions from the new head on, in the same form |
| Spans.CoverPut | src/user_buffer.c:514-627 | The set of covered positions after a put is the old set united with the interval |
| Spans.CoverCut | src/user_buffer.c:630-675 | The set of covered positions after a read is the old set from the new head on |
| Reassembly.CanMergeAgrees | src/user_buffer.c:492-501 | CanMerge on wrapping numbers means overlap or contact of the intervals, inside a window narrower than 2^31 |
| Reassembly.MergedNumbers | src/user_buffer.c:503-512 | The numbers that MergeFragments computes are those of the union, across wrap-around |
| Reassembly.MergeFragments | src/user_buffer.c:503-512 | The second fragment becomes the union of the two and keeps its place in the list |
| Reassembly.Before | src/user_buffer.c:603-616 | The insert position is right, and the assertion in the last branch never fails |
| Reassembly.RingBuffer.constructor | src/user_buffer.c:423-448 | A fresh buffer is consistent and empty |
| Reassembly.RingBuffer.Visit | src/user_buffer.c:568-595 | One iteration keeps the partly merged linked list correct (pointers through prev and pprev), and stops only before an element behind everything joined |
| Reassembly.RingBuffer.Absorb | src/user_buffer.c:570-587 | Merging into the visited element bypasses the fragment merged before, and no other |
| Reassembly.RingBuffer.Traverse | src/user_buffer.c:564-595 | The whole traversal ends, for every list, at the first element behind the joined interval |
| Reassembly.RingBuffer.HangIn | src/user_buffer.c:597-618 | A fragment that merged with nothing is linked in at its place in the order |
| Reassembly.RingBuffer.LinkFragment | src/user_buffer.c:553-618 | The linked list afterwards is the unique canonical list for the old positions and the new ones |
| Reassembly.RingBuffer.StoreBytes | src/user_buffer.c:537-551 | The payload is stored inside the array, across the compaction, and all bytes stored before keep their place in the window |
| Reassembly.RingBuffer.Account | src/user_buffer.c:620-624 | merged_len becomes the length of the run at the head, cum_len the number of bytes ever made readable |
| Reassembly.RingBuffer.RBPut | src/user_buffer.c:514-627 | For every segment: 0 if empty or before the head, -2 if it does not fit, else all of it is taken; the bytes held are the old ones with the payload laid over them, the list is updated accordingly, and all counters stay consistent |
| Reassembly.RingBuffer.RBRemove | src/user_buffer.c:630-675 | min(len, merged_len) bytes leave at the front; sequence-level state is right for both variants of the branch, the remaining bytes are kept with `+=`, with head_offset 0, or if nothing remains |
| Reassembly.RingBuffer.CutFragment | src/user_buffer.c:650-672 | The assert(0) is unreachable, and the list is the old one without the bytes taken |
| Reassembly.RingBuffer.MergedFits | src/user_buffer.c:630-636 | merged_len bytes from the head on are all there, the next one is not, and they fit the buffer |
| Reassembly.HeldStored | src/user_buffer.c:537-551 | The bytes read back after a store are the old ones overlaid with the payload |
| Reassembly.HeldCut | src/user_buffer.c:639-645 | With the window moved by the bytes read, every remaining byte is read back at its position |
| Reassembly.CompiledRemoveKeepsBytes | src/user_buffer.c:642 | The compiled assignment head_offset = len keeps the remaining bytes if and only if head_offset was 0 or none remain |
| Reassembly.IntendedRemoveKeepsBytes | src/user_buffer.c:640 | The disabled assignment head_offset += len always keeps them |
| Reassembly.ReadThree | src/user_buffer.c:639-645 | Three bytes read one by one through the compiled branch come out as first, second, second |
| SendBuffers.SendBuffer.constructor | src/user_buffer.c:34-67 | A fresh send buffer is an empty queue that starts at the initial sequence number |
| SendBuffers.SendBuffer.SBPut | src/user_buffer.c:77-110 | The longest prefix that fits is appended to the byte queue, across compaction; -2 exactly if the queue is full; nothing queued is lost or reordered |
| SendBuffers.SendBuffer.SBRemove | src/user_buffer.c:112-138 | The oldest min(len, queued) bytes leave the queue; -2 exactly if it is empty |
| SendBuffers.SendBuffer.Stored | src/user_buffer.c:77-138 | What lies in the array from head on is the queue |
| SendBuffers.SendBuffer.RightEdge | src/user_buffer.c:77-138 | head_seq + len = init_seq + cum_len modulo 2^32: the right edge depends on the bytes accepted only, not on removals |
| Segments.CoversIsSlice | src/user_tcp.c:2454-2526 | The concatenated payload of contiguous segments is the stream slice between their end points |
| Segments.SentOneMore | src/user_tcp.c:2499-2525 | One more segment keeps: contiguous, within the window, all but the last of full size |
| Segments.FirstGoesOut | src/user_tcp.c:2454-2526 | With data queued and the window open, a flush that may send one packet sends exactly one, from the first unacknowledged byte on |
| Senders.Sender.constructor | src/user_stream.c:254-271 | A sender starts with nothing written, in order |
| Senders.Sender.UserCopyFromUser | src/user_api.c:82-126 | min(snd_wnd, len) bytes are appended and snd_wnd = size - len is kept, so the assertion ret == sndlen never fails |
| Senders.Sender.FlushSendbuffer | src/user_tcp.c:2421-2532 | An assertion fails if and only if there is no buffer, or data is queued while snd_nxt is out of order; otherwise the segments are contiguous, lie within snd_una + min(cwnd, peer_wnd), none exceeds the maximal payload, and the call stops for the reason its result names |
| Senders.Sender.FlushLoop | src/user_tcp.c:2454-2526 | The loop ends on every input and has then sent everything that the window, the data and the device allow |
| Senders.Sender.SendNext | src/user_tcp.c:2467-2525 | One iteration sends the next slice of the stream or has a reason to stop |
| Senders.Sender.SendTcppkt | src/user_tcp.c:527-659 | The payload is the slice of the stream at snd_nxt; the size test, a refusing device and success are told apart by the result |
| Senders.Sender.BufferedIff | src/user_tcp.c:2470 | buffered_len is the number of unsent bytes if and only if snd_nxt is not behind the last byte; otherwise it is short of 2^32 by the distance |
| Senders.Sender.ProcessAck | src/user_tcp.c:1609-1815 | For every acknowledgement: exactly the bytes below a new one leave the buffer, one of unwritten bytes is ignored; when it counts as duplicate, what happens to snd_nxt, windows, threshold and counters; and the flush loop's order is lost if and only if the state on entry has two duplicates counted and the acknowledgement repeats the last one, is older than snd_una, carries no data and leaves the window edge in place |
| Senders.Sender.TakeSegment | src/user_tcp.c:1882-1889 | The peer window is taken from every segment that passes the window test, before process_ack: it differs from the one that section 3.10.7.4 of RFC 9293 prescribes if and only if the segment is outdated (or acknowledges nothing under way) and its window differs from the present one; a duplicate then needs equal numbers in both directions |
| Senders.LateSegmentCloses | src/user_tcp.c:1882-1889 | A late copy of an old acknowledgement with a window of 1 sets the peer window to 1 where the standard keeps 100 |
| Senders.StaleDuplicates | src/user_tcp.c:1687-1704 | Four late copies of an acknowledgement older than snd_una, with equal numbers in both directions, end in the failing assertion of the next flush |
| Senders.Sender.TakeSyn | src/user_tcp.c:1094 | A SYN in ESTABLISHED keeps the order of snd_una, snd_nxt and the last byte if and only if its acknowledgement number lies between snd_una and the last byte |
| Senders.SynThenFlush | src/user_tcp.c:1094 | A SYN with a number already acknowledged ends in the failing assertion of the next flush |
| Senders.Sender.AckFin | src/user_tcp.c:1248-1255 | The acknowledgement of our FIN puts snd_una behind the FIN while the buffer stays empty, which is the state that all other steps go on from |
| Senders.Sender.Consider | src/user_tcp.c:1640-1743 | Window update, duplicate count, fast retransmission and snd_nxt together |
| Senders.Sender.CountDuplicate | src/user_tcp.c:1665-1685 | An acknowledgement is a duplicate exactly if it is below snd_nxt, repeats the last one, carries no data and moves no window edge; the counter wraps at 256 |
| Senders.Sender.React | src/user_tcp.c:1687-1732 | On the third duplicate sending resumes at the acknowledgement and half the flight becomes the threshold; later ones inflate the window |
| Senders.HalfWindowIsHalf | src/user_tcp.c:1704-1708 | The new threshold is the half, rounded down, of the smaller of congestion and peer window if that half holds two segments, and two segments otherwise |
| Senders.Sender.GrowWindow | src/user_tcp.c:1753-1788 | Slow start in 32-bit arithmetic |
| Senders.GrowthIsBounded | src/user_tcp.c:1769-1780 | For all inputs slow start opens the window by at most the bytes acknowledged and the option bytes of each full segment among them; it shrinks the window if and only if the sum does not fit into 32 bits while one segment more does |
| Senders.Sender.Release | src/user_tcp.c:1745-1813 | snd_una, the buffer and snd_wnd move together; the early return with the lock held is never taken |
| Senders.SameEdgeNeedsEqualNumbers | src/user_tcp.c:1620-1670 | The edge test compares the peer's sequence number with our acknowledged one: with an unchanged window it holds if and only if these two numbers are equal |
| Senders.Sender.StartOver | src/user_timer.c:184-317 | With retries left sending starts over at snd_una with one segment, in order again unless our FIN is acknowledged already, and the threshold is half the flight; without them nothing changes and the connection is given up |
| Receivers.Receiver.constructor | src/user_stream.c:261-269 | A receiver starts empty with the initial window |
| Receivers.Receiver.ProcessPayload | src/user_tcp.c:1459-1559 | A segment counts exactly if its end lies in the window; then bytes, fragments, run, rcv_nxt and rcv_wnd are those of the reassembly buffer after the put, in the FIN_WAIT states with the run thrown away, and the result tells whether rcv_nxt moved |
| Receivers.AdvancesIff | src/user_tcp.c:1465-1532 | rcv_nxt moves if and only if the segment starts within what may be handed out or right behind it, ends beyond that, and fits window and buffer; then it moves to the end of the segment at least |
| Receivers.RunAfterPut | src/user_buffer.c:620-624 | A put lengthens the readable run if and only if it covers the first missing byte, and then to its own end at least |
| Receivers.Receiver.UserCopyToUser | src/user_api.c:34-80 | The application gets the next min(len, merged_len) bytes of the stream in order, rcv_nxt stays, the window grows; a window update is queued exactly once |
| Receivers.Receiver.MergedIsRun | src/user_tcp.c:1522-1523 | What may be handed out is the maximal run of received bytes at the head |
| Receivers.EdgeAdvances | src/user_tcp.c:1465-1523 | From the first payload on rcv_nxt + rcv_wnd = head + size, the edge and rcv_nxt never retreat, and a segment that passes the window test is never refused for space |
| Receivers.EdgeAdvancesOnRead | src/user_api.c:58-59 | A read moves the edge by exactly the bytes read |
| Receivers.InitialWindowIsTakenBack | src/user_tcp.c:1522-1523 | At the first payload the edge retreats if and only if the initial window exceeds the buffer, and exactly the payloads beyond the buffer are refused although they passed the test |
| StreamRing.StepKeepsInv | src/user_buffer.c:799-832 | Every single load and store of either thread keeps the invariant that ties both stale index copies, the slots and the history together |
| StreamRing.Refines | src/user_buffer.c:799-832 | Each such step is a step of a FIFO of at most capacity entries: one added behind, the oldest taken, or no change |
| StreamRing.RunsAreFifo | src/user_buffer.c:799-832 | On every interleaving what was taken is a prefix of what was put in, in order, without loss or repetition, and at most capacity entries wait |
| StreamRing.AnswersAreJustified | src/user_buffer.c:799-831 | In every state of every run: a step that reports a full queue exists if and only if capacity entries are waiting when _head was loaded, one that stores the entry otherwise; a step that reports an empty queue if and only if nothing was published when _tail was loaded, one that takes an entry otherwise; the slot taken is filled |
| StreamRing.FullIffFull | src/user_buffer.c:801-814 | Of a producer that has loaded both indices: it can give up if and only if capacity entries were not taken when it looked, and can store its entry if and only if fewer were |
| StreamRing.EmptyIffEmpty | src/user_buffer.c:819-831 | Of a consumer that has loaded both indices: it can report an empty queue if and only if everything published when it looked has been taken, and can read its slot otherwise |
| StreamRing.NobodyWaits | src/user_buffer.c:799-831 | In every state of every run each of the two threads has a step: neither waits for the other |
| StreamRing.EnqueueAlone | src/user_buffer.c:799-814 | From every state with an idle producer and fewer than capacity entries waiting, the four steps of the producer alone append its entry |
| StreamRing.DequeueAlone | src/user_buffer.c:817-831 | From every state with a waiting consumer and an entry in the queue, the four steps of the consumer alone take the first entry |
| StreamRing.PlaceAhead | include/user_buffer.h:67-69 | The next-index step places entries cyclically over capacity + 1 slots |
| StreamRing.StoreSlotKeepsInv | src/user_buffer.c:805-807 | The slot written holds no entry that is still waiting, whatever index copy it was chosen by |
| MemPools.Create | src/user_mempool.c:14-71 | NULL exactly for a chunk size below the header size or not a multiple of four; otherwise all chunks are free |
| MemPools.MemPool.constructor | src/user_mempool.c:34-68 | One run holds all chunks |
| MemPools.MemPool.Alloc | src/user_mempool.c:87-111 | NULL exactly if all chunks are out, otherwise a chunk that was not out; the runs and the outstanding chunks still partition the region, and no user's data is touched |
| MemPools.MemPool.Free | src/user_mempool.c:113-123 | A chunk given back is free again; the partition and all other users' data are kept |
| MemPools.MemPool.Scribble | src/user_mempool.c:87-123 | Users may overwrite their chunks, headers included, without harming the pool |
| MemPools.MemPool.FreeIsRest | src/user_mempool.c:92-97 | mp_free_chunks is the number of chunks not handed out |
| MemPools.HeaderMoves | src/user_mempool.c:99-104 | Lazy splitting: moving the header to the next chunk leaves the list of runs intact |
| MemPools.ChainedElsewhere | src/user_mempool.c:94-122 | The list depends only on memory that is free |
| MemPools.TotalIsSize | src/user_mempool.c:36-68 | The run lengths add up to the number of free chunks |
| MemPools.ChunksDoNotOverlap | src/user_mempool.c:101 | Different chunks are disjoint byte ranges |
| MemPools.LastChunkFits | src/user_mempool.c:36 | All chunks lie in the region if and only if the chunk size divides its size |
| Checksums.CalculateChecksum | src/user_tcp.c:114-146 | The result is the ones' complement of the ones' complement sum of segment and pseudo header, for any length that fits 16 bits, even or odd, and either byte order; the accumulator never overflows |
| Checksums.SumWords | src/user_tcp.c:120-132 | The loop and the masked last byte give the sum of the words padded with zero, whatever lies behind an odd end |
| Checksums.FoldTwice | src/user_tcp.c:140-145 | Two folds are enough for every 32-bit sum |
| Checksums.FoldKeepsResidue | src/user_tcp.c:140-141 | One fold keeps the residue modulo 65535 and the distinction between zero and a multiple |
| Checksums.VerifiesIff | src/user_tcp.c:1830-1832 | The receiver's recomputation is 0 if and only if something non-zero was summed and the sum is a multiple of 65535 |
| Checksums.OrdersAgree | src/user_tcp.c:124-128 | The sums of the two byte orders differ by a factor of 256 modulo 65535 |
| Checksums.RoundTrip | src/user_tcp.c:630-632 | Storing the value computed over a zero check field makes the receiver's computation 0, for every segment and every combination of byte orders |
| RssHash.BuildKeyCache | src/user_addr.c:340-371 | Every entry is the 32-bit window of the key at its index |
| RssHash.WindowSlides | src/user_addr.c:364-369 | Shifting in one key bit turns each window into the next |
| RssHash.FirstWindow | src/user_addr.c:354-357 | The first four bytes form the first window |
| RssHash.HashCache.GetRSSHash | src/user_addr.c:374-416 | The hash is the exclusive or of the key windows at the set bits of the 96-bit input, on the first call and every later one |
| RssHash.ToeplitzConcat | src/user_addr.c:391-414 | The hash of a concatenation is the exclusive or of the parts at their offsets |
| RssHash.HashIsSymmetric | src/user_addr.c:345-352 | With this key the hash does not depend on the direction of the flow |
| RssHash.EntryReversesGroups | src/user_addr.c:418-434 | The added offsets reverse each group of four table entries |
| RssHash.HashCache.GetRSSCPUCore | src/user_addr.c:425-437 | The core is the table entry of the hash modulo the number of queues, always in range |
| RssHash.CoreIsSymmetric | src/user_addr.c:425-437 | Both directions of every flow go to the same core |
| AddressPools.AddressPool.constructor | src/user_addr.c:94-117 | An empty pool is consistent |
| AddressPools.CreatePerCore | src/user_addr.c:77-171 | All pooled addresses suit the core, and all suitable ones of the range are there unless the pool is full |
| AddressPools.CreateRow | src/user_addr.c:139-154 | One address with all its ports |
| AddressPools.AddressPool.FetchAddress | src/user_addr.c:195-255 | The first free entry that is wanted and whose flow reaches the core moves to the used list; failure exactly if there is none. Although creation and fetching pass the endpoints in opposite orders, the core test never rejects an entry of a pool made for this core and endpoint |
| RbTree.RbHead.constructor | include/user_tree.h:342-383 | An empty tree is valid |
| RbTree.RbHead.RotateLeft | include/user_tree.h:278-296 | Exactly the six links of a left rotation change |
| RbTree.RbHead.RotateRight | include/user_tree.h:299-317 | Exactly the six links of a right rotation change |
| RbShape.RotateLeftShape | include/user_tree.h:278-296 | On correctly linked nodes these link changes are the rotation of the subtree, with all parent pointers and the root correct |
| RbShape.RotateRightShape | include/user_tree.h:299-317 | The same for the right rotation |
| RbSpec.RotationKeepsOrder | include/user_tree.h:278-317 | A rotation keeps the in-order sequence |
| RbShape.HungShape | include/user_tree.h:548-556 | Linking a new red leaf gives the tree with that leaf |
| RbShape.SpliceShape | include/user_tree.h:481-490 | Bypassing a node with at most one child gives the tree without it |
| RbShape.TakePlaceShape | include/user_tree.h:493-504 | Copying the links and redirecting the neighbours puts one node in the place of another |
| RbSpec.PlugKeepsRules | include/user_tree.h:344-384 | The red-black rules of a subtree and of its surroundings give those of the tree |
| RbSpec.RecolorGrows | include/user_tree.h:350-356 | Red uncle: recolouring moves the clash two levels up and keeps all black counts |
| RbSpec.StraightGrows | include/user_tree.h:357-362 | The inner rotation keeps the invariant |
| RbSpec.LiftedGrows | include/user_tree.h:363-364 | The outer rotation removes the clash |
| RbSpec.GrownRules | include/user_tree.h:383 | Painting the root black restores all rules |
| RbTree.RbHead.InsertStepLeft | include/user_tree.h:349-365 | One iteration below a left parent keeps links, order and invariant and climbs |
| RbTree.RbHead.InsertStepRight | include/user_tree.h:365-381 | The mirror image |
| RbTree.RbHead.InsertColor | include/user_tree.h:344-384 | The loop ends and leaves a correctly linked valid tree with the same in-order sequence |
| RbTree.RbHead.InsertionPoint | include/user_tree.h:537-547 | The descent ends at the equal node, or at the only leaf where the key keeps the order |
| RbTree.RbHead.Insert | include/user_tree.h:531-559 | Returns the existing equal item and changes nothing, or adds exactly this item; search order, links, colours and black counts hold afterwards |
| RbSpec.RedSiblingShrinks | include/user_tree.h:394-398 | Red sibling: the rotation gives a black one and keeps the shortage invariant |
| RbSpec.BlackNephewsShrink | include/user_tree.h:399-405 | Black nephews: the shortage moves one level up |
| RbSpec.NearLiftedShrinks | include/user_tree.h:407-416 | Red near nephew: the rotation makes the far one red |
| RbSpec.RepairedRules | include/user_tree.h:417-423 | Red far nephew: the last rotation repairs all black counts |
| RbSpec.BlackenedRules | include/user_tree.h:460-461 | Painting the node black at the end restores all rules |
| RbTree.RbHead.RemoveStepLeft | include/user_tree.h:392-424 | One iteration with the short subtree on the left: links, order and invariant are kept, and the loop comes nearer to its end |
| RbTree.RbHead.RemoveStepRight | include/user_tree.h:425-458 | The mirror image |
| RbTree.RbHead.RemoveColor | include/user_tree.h:386-462 | The loop ends and leaves a correctly linked valid tree with the same in-order sequence |
| RbSpec.SuccessorOrder | include/user_tree.h:473-511 | Replacing an inner node by the leftmost one of its right subtree removes just this node from the in-order sequence |
| RbSpec.SuccessorRules | include/user_tree.h:473-511 | What the loop needs after that replacement: all rules, or one missing black node at the successor's old place |
| RbSpec.BypassRules | include/user_tree.h:513-527 | The same for a node with at most one child |
| RbTree.RbHead.Remove | include/user_tree.h:464-529 | Removes exactly the given item from any valid tree, which stays valid |
| RbTree.RbHead.Find | include/user_tree.h:561-576 | Agrees with the set of items: the item with the key, or none has it; with at most 2*log2(n+1) comparisons |
| RbTree.RbHead.NFind | include/user_tree.h:578-597 | The least item at or above the key, or none is |
| RbTree.RbHead.MinMax | include/user_tree.h:643-656 | The first or last item in key order |
| RbTree.RbHead.Next | include/user_tree.h:600-619 | The item that follows in key order |
| RbTree.RbHead.ForEach | include/user_tree.h:670-673 | Stepping visits every item once, in ascending order |
| RbSpec.AfterIsLeast | include/user_tree.h:583-596 | The last right-hand turn of a failed search is the least item above the key |
| RbSpec.HeightByBlackHeight | include/user_tree.h:344-384 | The height is at most twice the black height, and 2^black height is at most n + 1 |
| RbSpec.HeightBound | include/user_tree.h:344-384 | The height of a valid tree of n items is at most 2*log2(n+1) |
| Epoll.EventPoll.constructor | src/user_epoll_rb.c:121-274 | A new poll object is consistent and empty |
| Epoll.EventPoll.CtlAdd | src/user_epoll_rb.c:157-210 | -1 exactly if the socket is registered; otherwise one item more, not ready; rbcnt is the size of the set |
| Epoll.EventPoll.CtlDel | src/user_epoll_rb.c:215-246 | -1 exactly if the socket is not registered; otherwise its item is gone, and the object stays consistent if and only if the item was not ready |
| Epoll.EventPoll.CtlMod | src/user_epoll_rb.c:251-266 | Only the events of this socket change |
| Epoll.EventPoll.EventCallback | src/user_epoll_rb.c:453-513 | A first signal puts the item at the front of the ready list, repeated ones only add events: ready mark and list membership agree, without duplicates |
| Epoll.EventPoll.Collect | src/user_epoll_rb.c:403-433 | Exactly min(rdnum, maxevents) distinct registered items are reported, and these are no longer ready |
| Epoll.EventPoll.SocketsDiffer | src/user_epoll_rb.c:403-433 | Distinct items have distinct sockets, so each socket is reported once |
| Epoll.EventPoll.Destroy | src/user_epoll_rb.c:524-548 | The loop ends with both structures empty |
| SchedLists.Stream.constructor | src/user_stream.c:191-271 | A new stream is on no list |
| SchedLists.Manager.constructor | src/user_tcp.c:243-324 | An empty manager is consistent |
| SchedLists.WithoutKeeps | src/user_tcp.c:289-324 | Unlinking one element keeps all others, once each |
| SchedLists.SizesUpdate | src/user_timer.c:25-73 | The wheel counter is the total length of the slots |
| SchedLists.Manager.AddToAckList | src/user_tcp.c:243-254 | The stream is on the list, at the end if it was not there; flag, membership and counter agree for every stream |
| SchedLists.Manager.AddToControlList | src/user_tcp.c:256-267 | The stream is on the list, at the end if it was not there; flag, membership and counter agree for every stream |
| SchedLists.Manager.AddToSendList | src/user_tcp.c:269-287 | The stream is on the list, at the end if it was not there; flag, membership and counter agree for every stream |
| SchedLists.Manager.RemoveFromAckList | src/user_tcp.c:289-299 | The stream is off the list, the order of the others and the agreement of flags and counter are kept |
| SchedLists.Manager.RemoveFromControlList | src/user_tcp.c:302-312 | The stream is off the list, the order of the others and the agreement of flags and counter are kept |
| SchedLists.Manager.RemoveFromSendList | src/user_tcp.c:314-324 | The stream is off the list, the order of the others and the agreement of flags and counter are kept |
| SchedLists.Manager.AddToRtoList | src/user_timer.c:25-60 | A stream without a timer enters exactly one slot, the one its index then names; one with a timer stays |
| SchedLists.Manager.RemoveFromRtoList | src/user_timer.c:63-73 | It leaves exactly that slot |
| SchedLists.Manager.AddToTimewaitList | src/user_timer.c:75-99 | The stream is last on the list and has no retransmission timer: the two users of timer_link stay disjoint |
| SchedLists.Manager.RemoveFromTimewaitList | src/user_timer.c:101-112 | The stream is off the list, others and counter in agreement |
| SchedLists.Manager.AddToTimeoutList | src/user_timer.c:114-125 | The stream is last on the list |
| SchedLists.Manager.RemoveFromTimeoutList | src/user_timer.c:127-135 | The stream is off the list |
| SchedLists.Manager.UpdateTimeoutList | src/user_timer.c:137-144 | Activity moves a watched stream to the end, others keep their order |
| SchedLists.Manager.Admit | src/user_stream.c:191-271 | A new stream keeps all lists consistent |
| SchedLists.Manager.Destroy | src/user_stream.c:325-437 | The stream leaves every list, and all lists stay consistent |
| Sending.SendTcppkt | src/user_tcp.c:527-659 | With room exactly one packet goes out, with these flags, the number of the stream (that of our FIN for a FIN, one before for a window probe) and the number awaited from the peer; snd_nxt, the FIN mark and the timer follow; without room nothing changes |
| ControlPasses.SendControlpkt | src/user_tcp.c:2534-2624 | Which packet goes out in which state, with which numbers; the FIN of LAST_ACK and FIN_WAIT_1 is held back while other lists hold the stream; a closed stream is destroyed once its reset is out; a refused one had no room or waits for its other lists |
| ControlPasses.RepliesAreProper | src/user_tcp.c:2534-2624 | What goes out is what the standard expects: SYN and ACK with the initial number in SYN_RCVD, FIN and ACK with its own number in FIN_WAIT_1 and LAST_ACK, in CLOSING the FIN again exactly if it is unsent or snd_nxt is at it, a bare acknowledgement of the number awaited in the other open states, a reset in CLOSED, nothing in LISTEN; afterwards the FIN counts as sent exactly in the states that have one |
| ControlPasses.WriteControlList | src/user_tcp.c:2626-2669 | Streams leave from the front only, as many as the threshold allows, up to the first that is blocked, which stays first; the packets of those that left go out in this order and are all that goes out; each of them is as its packet leaves it, and destroyed exactly if it is closed; nothing happens to any other |
| Sending.EnqueueAck | src/user_tcp.c:382-413 | The stream is on the list and owes what the option asks for; the counter has six bits |
| AckPasses.WriteAck | src/user_tcp.c:2780-2855 | The stream sends what it owes as far as the room allows, nothing if its state has nothing to acknowledge; every acknowledgement owed is sent or still owed; the stream stays exactly while it owes any, which means that the device is full |
| AckPasses.AcksAreProper | src/user_tcp.c:2780-2855 | If the state acknowledges and the number awaited is within what the receive buffer has, exactly the debt paid goes out: first bare acknowledgements of the number awaited, then the window probe with the number before snd_nxt; in any other case nothing goes out and the debt is dropped; debt is left only if the room is used up |
| AckPasses.WriteAckList | src/user_tcp.c:2760-2870 | The streams from the front, as many as the threshold allows, each have their turn with the room that those before left; what goes out is what they send, in order; exactly those that still owe something stay, in order, before the others; nothing happens to any other stream |
| AckPasses.NoDebtForgotten | src/user_tcp.c:2780-2844 | Of the streams served, whoever left the list owes nothing |
| AckPasses.OwingMeansFull | src/user_tcp.c:2780-2844 | If one of the streams served still owes something, the device is full |
| SendPasses.WriteDataList | src/user_tcp.c:2671-2757 | The streams from the front, as many as the threshold allows, have their turn, up to the first that cannot send everything it may, which goes to the end of the list; the others that have been served leave it. The packets that go out are their segments, in order; snd_nxt of each moves by exactly the bytes that the room left to it takes, of every other stream not at all; the count and the room follow |
| SendPasses.DataIsProper | src/user_tcp.c:2454-2526 | One stream sends as many of its segments as the device takes, each with the number behind the one before and an acknowledgement of the number awaited |
| SendPasses.DataMovesOn | src/user_tcp.c:2454-2526 | Its snd_nxt moves by exactly the bytes of these segments, its state does not change, and it leaves the send list if and only if its answer is not negative |
| DataPasses.ServeStream | src/user_tcp.c:2671-2757 | The first stream of the send list with its bytes: it leaves the list if and only if its state sends no data, or all data is sent, or the window of this pass is used up; the packets taken are the segments of the flush, and the scheduler's snd_nxt stays that of the send buffer |
| DataPasses.SegmentsAreWires | src/user_tcp.c:2454-2526 | The packets that the scheduler logs for a flush are the segments of the sender with their bytes: same numbers, same lengths, same acknowledgement |
| DataPasses.LeavesIff | src/user_tcp.c:2491-2523 | The result of a flush is negative if and only if something is left that its window would let it send |
| DataPasses.SizesAddUp | src/user_tcp.c:2454-2526 | The segment sizes of a flush add up to the distance that snd_nxt moves |
| Scheduling.UpdateRetransmissionTimer | src/user_timer.c:146-169 | The timer runs exactly while something is unacknowledged |
| Scheduling.HandleRto | src/user_timer.c:179-353 | An assertion fails if and only if on entry retries are left and the state has nothing to repeat, or data is to be repeated without a send buffer. Otherwise the stream is closed if and only if its retries were used up, 16 or those for a SYN in SYN_SENT, with the reason of the source, and destroyed if nobody holds it; if not, it keeps its state and waits to send from snd_una on |
| Scheduling.TimeoutClosesIff | src/user_timer.c:184-317 | Of every stream at which no assertion fails: a timeout closes it if and only if its retries were used up on entry; otherwise only one retry is counted, snd_nxt goes back to snd_una, and it waits on the list that its state calls for |
| Scheduling.Repeat | src/user_timer.c:317-352 | Data is repeated before a FIN, and the FIN then waits |
| Scheduling.DrainSlot | src/user_timer.c:403-428 | The slot is drained from the front up to the threshold; an assertion fails if and only if one of the streams that the threshold reaches makes HandleRTO fail |
| Scheduling.CheckRtmTimeout | src/user_timer.c:388-443 | The scan ends. It handles the first streams of the slot that is due, as many as it may, and no other stream; it fails if and only if it is due and one of these fails in HandleRTO; a stream is closed by it if and only if it was among them with its retries used up; a scan that may handle more streams than the slot holds does not turn the wheel and touches no stream of another slot |
| Scheduling.ScanClosesIff | src/user_timer.c:403-428 | Of every stream that a scan has passed: closed if and only if it was before, or was handled with its retries used up; one handled with retries left keeps its state and waits to send from snd_una on |
| Runs.IdleThenTimeout | src/user_timer.c:487-523 | A run into that assertion: the handshake, ten bytes in flight, the inactivity check, which leaves the timer of the stream that it closes, and the next due scan, which fails |
| Runs.ResetThenTimeout | src/user_tcp.c:2329-2372 | The same with a reset by the application with ten bytes in flight, instead of the inactivity check |
| Scheduling.RearrangeRtoStore | src/user_timer.c:363-386 | Exactly the near enough streams of the overflow slot move, each to a slot that exists; the counter stays |
| Scheduling.CheckTimewaitExpire | src/user_timer.c:445-484 | The streams at the front whose time is over, as many as the threshold allows, up to the first whose time is not: each of them without a control packet to send is closed and destroyed; nothing happens to any other |
| Scheduling.CheckConnectionTimeout | src/user_timer.c:487-523 | The streams at the front that were idle too long, as many as the threshold allows, up to the first that was active: each of them is closed, and destroyed unless a socket refers to it; nothing happens to any other |
| Connections.HandleListen | src/user_tcp.c:911-931 | SYN_RCVD and a queued reply exactly for a SYN; the assertion fails exactly without one |
| Connections.HandleSynSent | src/user_tcp.c:933-1003 | All outcomes of an answer to our SYN; a stream without socket is destroyed, and exactly after a successful handshake the source goes on using it |
| Connections.HandleSynRcvd | src/user_tcp.c:1005-1080 | Established exactly by an acknowledgement of iss + 1, closed if the accept queue is full; the program ends exactly for another number |
| Connections.HandleEstablished | src/user_tcp.c:1082-1152 | The peer's FIN counts exactly at rcv_nxt; a SYN takes its acknowledgement number over unchecked |
| Connections.HandleCloseWait | src/user_tcp.c:1154-1172 | The state stays; an old segment is answered, another one acknowledges data |
| Connections.HandleLastAck | src/user_tcp.c:1174-1224 | Closed and destroyed exactly when the FIN is acknowledged by a segment in order |
| Connections.HandleFinWait1 | src/user_tcp.c:1226-1308 | The next state in all cases of FIN and acknowledgement, with the literal of line 1296; both send numbers, of data and of our FIN; list membership and timers |
| Connections.FinWait1DepartsIff | src/user_tcp.c:1296 | The code departs from the standard's next state if and only if one acceptable segment both acknowledges our FIN and carries the peer's in order |
| Connections.FinAndAckSkipTimeWait | src/user_tcp.c:1296 | A segment that shows it: CLOSED instead of TIME_WAIT |
| Connections.HandleFinWait2 | src/user_tcp.c:1310-1354 | TIME_WAIT exactly by a FIN at rcv_nxt, with the timer list changed accordingly |
| Connections.HandleClosing | src/user_tcp.c:1356-1393 | TIME_WAIT exactly by the acknowledgement of our FIN |
| Connections.ProcessRst | src/user_tcp.c:1561-1607 | The effect of a reset in every state |
| Connections.ValidSeq | src/user_tcp.c:775-811 | A segment is valid exactly if its end lies in the receive window; an invalid one changes neither state nor numbers, and is answered by the list that its state and number select, none for a reset |
| Connections.HandleTimeWait | src/user_tcp.c:1972-1981 | A late segment restarts the waiting time: new expiry, end of the waiting list, no retransmission timer, and nothing else |
| Connections.Process | src/user_tcp.c:1817-1989 | For every segment in every state the whole new connection: one outside the window changes no state, number or window; a reset has the outcome of user_tcp_process_rst; any other is handled as the state demands (next rows); the source does not survive it if and only if it is in the window, no reset, and the entry state and segment make the handler stop; the stream leaves the flow table only when closed; the peer window is that of the segment; all lists stay consistent; nothing is sent |
| Connections.SegmentMeans | src/user_tcp.c:1817-1989 | What becomes of a connection by a segment, state by state: a SYN in LISTEN leads to SYN_RCVD with a reply queued; iss + 1 in SYN_RCVD to ESTABLISHED, or CLOSED if the accept queue is full; in ESTABLISHED, FIN_WAIT_1 and FIN_WAIT_2 the payload and the FIN in order move state, rcv_nxt and the mark of the peer; LAST_ACK and CLOSING end exactly by the acknowledgement of our FIN; TIME_WAIT restarts its timer; resets have their outcome |
| Connections.HandledLegally | src/user_tcp.c:1904-1986 | Every handler takes the connection along an arc of the diagram, and our FIN counts as acknowledged only by fss + 1 after it was sent, that of the peer only at exactly the number awaited |
| Connections.ResetMeans | src/user_tcp.c:1561-1607 | The outcome of a reset in every state: a half-open connection is undone exactly by the number it sent last, an open one waits to be closed unless that has begun, a closing one is over |
| Connections.ApiClose | src/user_tcp.c:2244-2325 | The FIN gets the number behind the last byte written; the state moves to the closing side; the request leaves the close queue, and is put aside exactly if a control packet is queued |
| Connections.ApiReset | src/user_tcp.c:2329-2372 | Closed at once, or put aside exactly if the stream waits to send something |
| SegmentPasses.ServeSegment | src/user_tcp.c:1936-1966 | A segment with its bytes in ESTABLISHED, FIN_WAIT_1 or FIN_WAIT_2: the peer's FIN is consumed if and only if the segment gets as far as its payload, carries it, and its place in the stream is the first one not received; so every byte before it has been received |
| SegmentPasses.StaysNear | src/user_tcp.c:1459-1559 | Whatever becomes of a segment near the window, its end stays within 2^31 of the number awaited, so that equal numbers mean equal places |
| Connections.CloseStream | src/user_api.c:142-180 | Only the first call asks for a close, and it is queued exactly in ESTABLISHED and CLOSE_WAIT |
| Runs.Drive | src/user_tcp.c:1817-2757 | For every sequence of events (new streams, segments, requests, passes of the writers, timer scans, in any order): all of them are handled, up to the first, if any, at which the source fails an assertion or ends the program; at each event every stream and the packets sent are exactly what the handlers, passes and timers make of them; what is to be seen is a run in the sense of the next rows; all lists stay consistent; and if every scan may handle more streams than there are, the timer wheel never turns |
| Runs.Do | src/user_tcp.c:1817-2757 | One event: the result is false if and only if the source does not survive it; otherwise the streams that it concerns are as their handler leaves them and nothing happens to the others; each pass serves its list as far as threshold and room allow, and packets go out in passes only |
| Stacks.ScanTurn | src/user_timer.c:388-443 | A scan with the whole stack as values: it fails if and only if it is due and meets a failing stream among those that it may handle; otherwise it has handled exactly these |
| Runs.FollowsIsStep | src/user_tcp.c:1817-2757 | What an event does to the streams, with all their fields, is in each state and each mark a step of the diagram |
| Runs.WorldsAreRun | src/user_tcp.c:1817-2757 | So every run of the whole stack is a run of the diagram |
| Runs.OnlyClosedLeave | src/user_stream.c:325-437 | At no event does a stream leave the flow table unless it is closed, or was answered in SYN_SENT |
| Runs.HandshakeOpens | src/user_tcp.c:911-1080 | Whatever the initial numbers: a new stream, a SYN, a pass over the control list and the acknowledgement of iss + 1 lead to an established stream, watched for inactivity, that has acknowledged the SYN and runs no timer, and the source survives all of it |
| Runs.OpenConnection | src/user_tcp.c:911-1080 | The same driven through the code |
| Runs.TimeWaitIsEarned | src/user_tcp.c:1226-1393 | On every run a stream is in TIME_WAIT only if before our FIN went out in a control packet, a later segment acknowledged the number behind it, and a segment carried the peer's FIN with its end at exactly the number awaited: the three events are exhibited, in the order that the code demands |
| Runs.AckedHasCause | src/user_tcp.c:1174-1393 | On every run our FIN counts as acknowledged only after it went out and then a segment for this stream acknowledged fss + 1, with the fss that the FIN carried |
| Runs.PeerHasCause | src/user_tcp.c:1082-1354 | On every run the peer's FIN counts only after a segment for this stream carried it with its end at exactly the number awaited when it is looked at, and rcv_nxt is one more afterwards |
| Runs.SentHasCause | src/user_tcp.c:2534-2624 | On every run our FIN counts as sent only after a pass over the control list in a closing state |
| Runs.FinKeepsNumber | src/user_api.c:142-148 | On every run the number of our FIN never changes once the FIN is out: a further request to close has no effect |
| Runs.RunsCloseOnce | src/user_api.c:142-180 | On every run a request to close waits only while no FIN is out and no closing state is entered, and neither happens without a request |
| Runs.PutAsideIsLost | src/user_tcp.c:2275-2280 | On every run a close that was put aside stays put aside: the stream never sends a FIN and never enters a closing state |
| Runs.StatesHaveMarks | src/user_tcp.c:1226-1393 | On every run FIN_WAIT_2 and TIME_WAIT mean that our FIN is acknowledged, CLOSING and TIME_WAIT that the peer's is consumed |
| Runs.RankRises | src/user_tcp.c:911-1393 | On every run the state of every stream only goes up a fixed order with CLOSED on top |
| Runs.NeverSynSent | src/user_tcp.c:933-1003 | On every run no stream is ever in SYN_SENT: nothing in the stack opens a connection actively |

## Left out

- Packet input and output, Ethernet, IP, ARP, ICMP and UDP: sending a segment is a step that the device may refuse (`room`).
- Socket calls beyond the two copy functions, blocking waits, events to sockets, condition variables and locks: a guarded region is one step.
- Clocks are inputs (`curTs`); `malloc` and huge-page failure, `is_calloc` and the free lists of fragments are not modelled, fragments are garbage-collected.
- Flow and listener tables, the event queues of `src/user_epoll.c`, the count-based internal queues and the list macros: lists are sequences with membership flags.
- The twins of the stream ring (`SBEnqueue`, `RBFragEnqueue` and their counterparts) repeat the code that `StreamRing` models; `RB_PREV` mirrors `RB_NEXT`; the splay macros have no user.
- The rings are read with loads and stores that take effect one after the other in program order, as on the hardware the compiler barrier of the source is written for.
- Round-trip estimation, the retransmission timeout value, back-off, timestamp and window-scale options and the timestamp check of `user_tcp_validseq`: the timeout and the scale are parameters, a segment that this check rejects is not among the inputs.
- When a retransmission timer of the current slot fires relative to its deadline, and progress of a close: the wheel, which does not turn, and the undrained close queue do not support such claims.
- The second pass over the internal reset queue (`src/user_tcp.c:2374-2403`) and the queues of `user_tcp_handle_apicall` that only move streams between lists.
- Releasing addresses and the address map of the pools; the compile-time branches that are switched off, except the one named above.
- Senders.Sender.constructor: the send buffer is smaller than 32768 bytes, because the flush loop keeps lengths in 16-bit variables; `Valid` carries this for all methods of the class.
- Senders.Sender.FlushSendbuffer: `snd_nxt` is not behind the last byte written. The source calls the flush for a stream that a write, a duplicate or a timeout has put on the send list; with a FIN already sent and `snd_nxt` behind it, what lies behind the queued bytes would be sent (`Senders.Sender.BufferedIff`), and that memory is not modelled.
- Senders.Sender.FlushLoop: `snd_nxt` is not behind the last byte written, as for the whole flush.
- Senders.Sender.ProcessAck: states from ESTABLISHED on, `eff_mss` positive (the source divides by it), and an acknowledgement within 2^31 of the numbers it is compared with; without that the comparisons of RFC 9293 section 3.4 have no meaning.
- Reassembly.RingBuffer.RBPut: a segment lies within 2^31 of the head, for the same reason.
- Transfers.Transfer.Deliver: a segment that arrives ends less than 2^31 before the right edge of the window; an older one has a number that means other data, and the timestamp check that would catch it is not modelled.
- Transfers.Transfer.AckArrives: an acknowledgement that arrives, and the place the sender is at, are less than 2^31 behind the last byte written, for the same reason.
- Receivers.Receiver.ProcessPayload: the peer's FIN has not been received, because the source keeps the number behind the FIN in `rcv_nxt` but not in the buffer; the two window sizes together are below 2^30.
- Transfers.Transfer.constructor: one direction of an established connection, with the adding branch of RBRemove.
- Transfers.Transfer.Finish: the rounds are those of one retransmission each, without loss within a round; that the timer fires is assumed.
- Connections.Process: the bytes of a segment enter as a parameter that stands for the results of the sender and receiver models (`SegmentPasses.ServeSegment` joins the receiving half); congestion window set-up, events and accept queues are not part of it.
- Runs.Drive: the segments, their byte-level results and the sizes that a flush sends are part of the events; a data pass with flush sizes for fewer streams than the list has does nothing.
- Scheduling.HandleRto: the wheel and the state; the congestion part of the function is `Senders.Sender.StartOver`.
- DataPasses.ServeStream: a window probe requested by the flush joins the acknowledgement list after the stream has been put back, not during the flush.
- Epoll.EventPoll.Collect: the user data of an event is not modelled, only its event bits.
- MemPools.Create: the total size is positive; alignment and locking of the region are not modelled.
- AddressPools.CreatePerCore: the product of addresses and ports fits the `int` the source keeps it in.
