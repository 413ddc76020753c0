/** The implementation takes part in the runs of EndToEnd: a sender and a receiver joined by a
    network, where every call of the stack is one step of the abstract machine, so that what is
    proved of all its runs holds of the buffers. The connection is established in both
    directions and not closed. */
module Transfers {
  import opened SeqArith
  import opened Spans
  import opened Segments
  import opened TcpState
  import opened Senders
  import opened Receivers
  import opened EndToEnd

  /** The segments that lead up to position `b`, with their places. */
  ghost function PacketsOf(segs: seq<Segment>, b: int): set<Packet>
    decreases |segs|
  {
    if segs == [] then {}
    else
      var last := segs[|segs| - 1];
      var p := b - |last.payload|;
      if p < 0 then {} else PacketsOf(segs[..|segs| - 1], p) + {Packet(p, last.payload)}
  }

  lemma {:induction false} PacketsAreGenuine(stream: seq<byte>, base: int, a: int, segs: seq<Segment>, b: int)
    requires Covers(stream, base, a, segs, b) && 0 <= a && b <= |stream|
    ensures a <= b
    ensures forall p :: p in PacketsOf(segs, b) ==> a <= p.pos && p.pos + |p.payload| <= b && Genuine(p, stream)
  {
    if segs != [] {
      PacketsAreGenuine(stream, base, a, segs[..|segs| - 1], b - |segs[|segs| - 1].payload|);
    }
  }

  class Transfer {
    const sender: Sender
    const receiver: Receiver

    ghost var packets: set<Packet>
    ghost var acks: set<nat>
    ghost var got: seq<byte>

    ghost function SenderObjects(): set<object>
      reads this, sender
    {
      {sender} + if sender.sndbuf == null then {} else {sender.sndbuf, sender.sndbuf.data}
    }

    ghost function ReceiverObjects(): set<object>
      reads this, receiver, receiver.recvbuf
    {
      {receiver} + receiver.Footprint()
    }

    ghost function Machine(): World
      reads this, SenderObjects(), ReceiverObjects()
    {
      var v := receiver.Look();
      World(sender.Written(), sender.Una(), sender.nxt, packets, got, v.bytes, if v.merged < 0 then 0 else v.merged,
        acks)
    }

    ghost predicate Valid()
      reads this, SenderObjects(), ReceiverObjects()
    {
      && sender.Valid() && receiver.Valid() && sender.iss == receiver.irs && receiver.addOffset
      && SenderObjects() !! ReceiverObjects()
      && |got| == receiver.Look().removed && Inv(Machine())
      && sender.mss < 0x1_0000 && 0 < sender.effMss < 0x1_0000 && sender.dupAcks < 256
      && !sender.isFinSent
    }

    constructor (iss: u32, sendSize: nat, mss: nat, recvSize: nat)
      requires sendSize < 0x8000 && 0 < mss < 0x1_0000 && INITIAL_WINDOW + recvSize < HALF / 2
      ensures Valid() && Start(Machine())
    {
      sender := new Sender(iss, sendSize, mss);
      receiver := new Receiver(iss, recvSize, true);
      packets, acks, got := {}, {}, [];
    }

    /** What the theorem says of the buffers: the application has read a prefix of what was
        written, and the rest is in the reassembly buffer or still in the send buffer. */
    lemma Conserved()
      requires Valid() && sender.sndbuf != null
      ensures var m := Machine(); Delivered(m) && m.written == sender.sndbuf.stream && m.read == got
      ensures Kept(Machine()) == sender.sndbuf.Contents()
    {
      InvDelivers(Machine());
    }

    /** user_copy_from_user on the sending side. */
    method AppWrite(bytes: seq<byte>) returns (r: int)
      requires Valid()
      modifies sender`sndbuf, sender`sndWnd, sender.sndbuf, if sender.sndbuf == null then {} else {sender.sndbuf.data}
      ensures Valid() && Step(old(Machine()), Machine(), if r > 0 && r <= |bytes| then Write(bytes[..r]) else Nothing)
    {
      hide Wrap, Sender.Valid, Receiver.Valid, Inv, Receiver.Look;
      ghost var v := Machine();
      r := sender.UserCopyFromUser(bytes);
      ghost var e := if r > 0 && r <= |bytes| then Write(bytes[..r]) else Nothing;
      assert Step(v, Machine(), e);
      StepKeepsInv(v, Machine(), e);
    }

    /** user_tcp_flush_sendbuffer. */
    method Flush(room: nat) returns (code: int, segs: seq<Segment>, ok: bool)
      requires Valid() && sender.Una() - sender.nxt < HALF
      modifies sender`sndNxt, sender`nxt, this`packets
      ensures Valid()
      ensures ok <==> sender.sndbuf != null && (sender.sndbuf.len == 0 || old(sender.InOrder()))
      ensures ok && sender.sndbuf.len > 0 ==>
        Flushed(sender.FlushJob(), old(sender.nxt), segs, sender.nxt, code, room)
      ensures segs != [] ==> packets == old(packets) + PacketsOf(segs, sender.nxt)
      ensures Step(old(Machine()), Machine(), if segs == [] then Nothing else Send(PacketsOf(segs, sender.nxt)))
    {
      hide Wrap, Receiver.Valid, Receiver.Look, Covers, PacketsOf, Inv, Step, Sender.BufferValid;
      ghost var v := Machine();
      InvBounds(v);
      code, segs, ok := sender.FlushSendbuffer(room);
      if segs != [] {
        SendIsStep(v, sender.iss + 1, segs, sender.nxt);
        packets := packets + PacketsOf(segs, sender.nxt);
      } else {
        NothingIsStep(v);
      }
    }

    /** HandleRTO: sending starts over, as long as retries are left. */
    method Timeout() returns (alive: bool)
      requires Valid()
      modifies sender`sndNxt, sender`nxt, sender`ssthresh, sender`cwnd, sender`nrtx
      ensures Valid() && (alive <==> old(sender.nrtx) < MAX_RTX)
      ensures Step(old(Machine()), Machine(), if alive then StartOver else Nothing)
      ensures alive ==> sender.InOrder() && sender.nxt == sender.Una() && sender.cwnd == sender.mss
      ensures alive ==> sender.nrtx == old(sender.nrtx) + 1
    {
      hide Wrap, Receiver.Valid, Receiver.Look, Inv, Sender.BufferValid;
      ghost var v := Machine();
      alive := sender.StartOver();
      ghost var e := if alive then StartOver else Nothing;
      StepKeepsInv(v, Machine(), e);
    }

    /** A data segment arrives: user_tcp_process_payload in state ESTABLISHED. */
    method Deliver(seqNum: u32, payload: seq<byte>, ghost p: Packet) returns (r: int)
      requires Valid() && p in packets && 0 < |payload| < 0x1_0000
      requires payload == p.payload && seqNum == receiver.Num(p.pos)
      requires receiver.Look().Edge() - HALF < p.pos + |payload|
      modifies receiver`rcvNxt, receiver`rcvWnd, receiver`recvbuf, receiver`nxt, receiver`settled, receiver.Footprint()
      ensures Valid() && Step(old(Machine()), Machine(), Arrive(p))
      ensures forall o :: o in receiver.Footprint() && o !in old(receiver.Footprint()) ==> fresh(o)
      ensures old(receiver.settled) ==> receiver.settled && receiver.Look().Edge() >= old(receiver.Look()).Edge()
      ensures receiver.nxt > old(receiver.nxt) <==>
        Continues(old(receiver.Look()), receiver.size, p.pos, p.pos + |payload|)
      ensures receiver.nxt > old(receiver.nxt) ==> receiver.settled && receiver.nxt >= p.pos + |payload|
      ensures receiver.nxt >= old(receiver.nxt) && got == old(got)
    {
      hide Wrap, Sender.BufferValid, Receiver.BufferValid, Inv, Receiver.Look, Processed;
      ghost var v, u := Machine(), receiver.Look();
      NearEnough(p);
      var put;
      receiver.MergedIsRun();
      receiver.IsOrderly();
      r, put := receiver.ProcessPayload(ESTABLISHED, payload, seqNum, p.pos);
      receiver.MergedIsRun();
      DeliverIsStep(v, u, receiver.Look(), receiver.size, p, r, put, true);
      EdgeAdvances(u, receiver.Look(), receiver.size, false, payload, p.pos, r, put, true);
      AdvancesIff(u, receiver.Look(), receiver.size, payload, p.pos, r, put, true);
    }

    /** Nothing that has been sent lies far ahead of the receiver. */
    lemma NearEnough(p: Packet)
      requires Valid() && p in packets
      ensures p.pos + |p.payload| < receiver.nxt + HALF
    {
      assert Genuine(p, sender.Written());
    }

    /** The receiver sends an acknowledgement (lines 597 and 616-617 of src/user_tcp.c). */
    method EmitAck(wscale: nat) returns (ackSeq: u32, window: nat)
      requires Valid()
      modifies this`acks, receiver`needWndAdv
      ensures Valid() && Step(old(Machine()), Machine(), Acknowledge)
      ensures ackSeq == sender.Num(receiver.nxt) && receiver.nxt == |got| + Machine().merged
      ensures receiver.nxt in acks
      ensures window == WindowField(receiver.rcvWnd, wscale)
    {
      hide Wrap, Sender.Valid, Receiver.BufferValid, Receiver.Look, Inv, Reaches;
      ghost var v := Machine();
      receiver.MergedIsRun();
      ackSeq, window := receiver.Advertise(wscale);
      acks := acks + {|got| + v.merged};
      StepKeepsInv(v, Machine(), Acknowledge);
    }

    /** An acknowledgement arrives: its window is taken and it goes through user_tcp_process_ack in
        state ESTABLISHED. */
    method AckArrives(ackSeq: u32, seqNum: u32, window: nat, payloadlen: nat, ghost a: nat) returns (dup: bool)
      requires Valid() && a in acks && ackSeq == sender.Num(a) && sender.sndbuf != null
      requires |sender.Written()| - HALF < a && |sender.Written()| - HALF < sender.nxt
      modifies sender`sndUna, sender`sndNxt, sender`nxt, sender`sndWnd, sender`peerWnd, sender`cwnd, sender`ssthresh
      modifies sender`nrtx, sender`wl1, sender`wl2, sender`lastAckSeq, sender`dupAcks, sender.sndbuf
      ensures Valid() && Step(old(Machine()), Machine(), AckArrive(a, dup && sender.dupAcks == 3))
      ensures sender.peerWnd == ScaledWindow(window, sender.wscalePeer, false)
      ensures sender.Written() == old(sender.Written())
      ensures a > old(sender.Una()) ==> sender.Una() == a && sender.nrtx == 0
      ensures sender.nrtx <= old(sender.nrtx) + 1
    {
      hide Wrap, Receiver.Valid, Inv, Receiver.Look, Sender.BufferValid, Reaches, ScaledWindow;
      hide Sender.Outdated, Sender.PrescribedWindow, Sender.Repeats, Sender.Advances;
      ghost var v := Machine();
      InvBounds(v);
      KeptFits();
      dup := sender.TakeSegment(ESTABLISHED, false, seqNum, ackSeq, window, payloadlen, a);
      assert EndToEnd.AckArrives(v, Machine(), a, dup && sender.dupAcks == 3);
      StepKeepsInv(v, Machine(), AckArrive(a, dup && sender.dupAcks == 3));
    }

    /** The unacknowledged bytes fit into the send buffer. */
    lemma KeptFits()
      requires sender.Valid()
      ensures |sender.Written()| - sender.Una() < 0x8000
    {}

    /** user_copy_to_user on the receiving side. */
    method AppRead(len: int) returns (r: int, out: seq<byte>)
      requires Valid() && receiver.recvbuf != null && len < HALF
      modifies receiver`rcvWnd, receiver`settled, receiver`needWndAdv, receiver`onAckq, receiver.Footprint(), this`got
      ensures Valid() && Step(old(Machine()), Machine(), Read(|out|)) && got == old(got) + out
      ensures |out| == if len < 0 then 0 else Min(len, old(Machine()).merged)
      ensures forall o :: o in receiver.Footprint() ==> o in old(receiver.Footprint())
      ensures old(receiver.settled) ==>
        receiver.settled && receiver.Look().Edge() == old(receiver.Look()).Edge() + |out|
    {
      hide Wrap, Sender.Valid, Receiver.BufferValid, Inv, Receiver.Look, Receivers.Read, Reaches;
      ghost var v, u := Machine(), receiver.Look();
      receiver.MergedIsRun();
      r, out := receiver.UserCopyToUser(len);
      receiver.MergedIsRun();
      ReadIsStep(v, u, receiver.Look(), len, r, out);
      EdgeAdvancesOnRead(u, receiver.Look(), receiver.size, len, r, out, true);
      got := got + out;
    }

    // ---- completion

    /** What a transfer needs to come to its end, besides a retry that is left: segments with room
        for payload, and a window at the peer that is open and offers no more than the receiver can
        store. */
    ghost predicate Able()
      reads sender`sndbuf, sender`mss, sender`peerWnd, sender`wscalePeer, receiver`settled
    {
      && sender.sndbuf != null && OPTLEN < sender.mss && 0 < sender.peerWnd &&
        Shl(1, sender.wscalePeer) <= receiver.size
      && Longest() <= receiver.size && (!receiver.settled ==> Longest() <= INITIAL_WINDOW)
    }

    /** The longest payload of a segment. */
    function Longest(): int
      reads sender`mss, sender`peerWnd
    {
      Min(sender.mss - OPTLEN, sender.peerWnd)
    }

    /** The application reads all there is. */
    method ReadAll()
      requires Valid()
      modifies receiver`rcvWnd, receiver`settled, receiver`needWndAdv, receiver`onAckq, receiver.Footprint(), this`got
      ensures Valid() && Machine().merged == 0 && receiver.nxt == old(receiver.nxt) == |got|
      ensures forall o :: o in receiver.Footprint() ==> o in old(receiver.Footprint())
      ensures old(receiver.settled) ==> receiver.settled
    {
      hide Wrap, Sender.Valid, Receiver.BufferValid, Inv, Reaches;
      receiver.MergedIsRun();
      if receiver.recvbuf != null {
        var r, out := AppRead(receiver.recvbuf.mergedLen);
        receiver.MergedIsRun();
      }
    }

    /** The timer expires, and the first unacknowledged segment goes out again. */
    method Resend() returns (seqNum: u32, payload: seq<byte>, ghost p: Packet)
      requires Valid() && Able() && sender.nrtx < MAX_RTX && sender.Una() < |sender.Written()|
      modifies sender`sndNxt, sender`nxt, sender`ssthresh, sender`cwnd, sender`nrtx, this`packets
      ensures Valid() && p in packets && p.payload == payload && 0 < |payload| <= Longest()
      ensures Able() && p.pos == sender.Una() && seqNum == sender.Num(p.pos) && sender.InOrder()
    {
      hide Wrap, Sender.Valid, Receiver.Valid, Inv, Receiver.Look, Step;
      var alive := Timeout();
      seqNum, payload, p := SendFirst();
    }

    method SendFirst() returns (seqNum: u32, payload: seq<byte>, ghost p: Packet)
      requires Valid() && Able() && sender.nxt == sender.Una() < |sender.Written()| && sender.cwnd == sender.mss
      modifies sender`sndNxt, sender`nxt, this`packets
      ensures Valid() && p in packets && p.payload == payload && 0 < |payload| <= Longest()
      ensures p.pos == sender.Una() && seqNum == sender.Num(p.pos) && sender.InOrder()
    {
      hide Wrap, Sender.Valid, Receiver.Valid, Inv, Receiver.Look, Covers, Flushed, Step;
      sender.LenIsRest();
      ghost var j := sender.FlushJob();
      var code, segs, ok := Flush(1);
      WrapSmall(sender.mss - OPTLEN);
      FirstGoesOut(j, segs, sender.nxt, code);
      seqNum, payload := segs[0].seqNum, segs[0].payload;
      p := Packet(sender.Una(), payload);
    }

    lemma RecentEnough()
      requires Valid()
      ensures receiver.Look().Edge() - HALF < sender.Una() <= receiver.nxt
      ensures !receiver.settled ==> receiver.nxt == 0
    {
      InvBounds(Machine());
      KeptFits();
    }

    /** With everything read the window is as large as the buffer, or still the initial one, and the
        first unacknowledged bytes are what the receiver waits for, unless it has them already. */
    lemma NextInLine(n: int)
      requires Valid() && Machine().merged == 0 && Able() && 0 < n <= Longest()
      ensures receiver.settled ==> receiver.rcvWnd == receiver.size
      ensures sender.Una() == receiver.nxt ==>
        Continues(receiver.Look(), receiver.size, sender.Una(), sender.Una() + n)
    {}

    lemma AllRead()
      requires Valid() && Machine().merged == 0 && (sender.sndbuf == null || sender.sndbuf.len == 0)
      ensures got == sender.Written() && sender.Una() == |sender.Written()|
    {
      if sender.sndbuf != null {
        sender.LenIsRest();
      }
      assert got == sender.Written()[..|got|];
    }

    /** It arrives, and the application reads. */
    method Receive(seqNum: u32, payload: seq<byte>, ghost p: Packet)
      requires Valid() && p in packets && p.payload == payload && 0 < |payload| <= Longest()
      requires Able() && p.pos == sender.Una() && seqNum == sender.Num(p.pos)
      modifies receiver, receiver.Footprint(), this`got
      ensures Valid() && Able() && receiver.settled && Machine().merged == 0
      ensures receiver.nxt == |got| > sender.Una()
      ensures forall o :: o in receiver.Footprint() && o !in old(receiver.Footprint()) ==> fresh(o)
    {
      hide Wrap, Sender.BufferValid, Receiver.BufferValid, Inv, Receiver.Look;
      ReadAll();
      RecentEnough();
      NextInLine(|payload|);
      var r := Deliver(seqNum, payload, p);
      ReadAll();
    }

    /** The acknowledgement arrives. */
    method Confirm(peerSeq: u32)
      requires Valid() && Able() && receiver.settled && Machine().merged == 0
      requires sender.Una() < receiver.nxt && sender.InOrder()
      modifies this`acks, receiver`needWndAdv
      modifies sender`sndUna, sender`sndNxt, sender`nxt, sender`sndWnd, sender`peerWnd, sender`cwnd, sender`ssthresh
      modifies sender`nrtx, sender`wl1, sender`wl2, sender`lastAckSeq, sender`dupAcks, sender.sndbuf
      ensures Valid() && Able() && sender.nrtx == 0 && sender.Una() == receiver.nxt &&
        sender.Written() == old(sender.Written())
    {
      hide Wrap, Inv, Receiver.Look, ScaledWindow, Shl, WindowField, Step, Sender.Valid, Receiver.Valid;
      var ackSeq, window := EmitAck(sender.wscalePeer);
      NextInLine(1);
      WindowSurvives(receiver.rcvWnd, sender.wscalePeer);
      KeptFits();
      var dup := AckArrives(ackSeq, peerSeq, window, 0, receiver.nxt);
    }

    /** A closed window opens again: the application reads, and the next acknowledgement announces the
        space. Then the sender is able to go on, if the buffer is no smaller than the unit of the
        scale, and the initial window, while it lasts, offers no segment that the buffer refuses. */
    method Reopen(peerSeq: u32)
      requires Valid() && sender.sndbuf != null && |sender.Written()| - HALF < sender.nxt && OPTLEN < sender.mss
      requires Shl(1, sender.wscalePeer) <= receiver.size
      requires !receiver.settled ==>
        Shl(1, sender.wscalePeer) <= INITIAL_WINDOW && Min(sender.mss - OPTLEN, INITIAL_WINDOW) <= receiver.size
      modifies receiver`rcvWnd, receiver`settled, receiver`needWndAdv, receiver`onAckq, receiver.Footprint()
      modifies this`got, this`acks
      modifies sender`sndUna, sender`sndNxt, sender`nxt, sender`sndWnd, sender`peerWnd, sender`cwnd, sender`ssthresh
      modifies sender`nrtx, sender`wl1, sender`wl2, sender`lastAckSeq, sender`dupAcks, sender.sndbuf
      ensures Valid() && Able() && sender.Written() == old(sender.Written()) && sender.nrtx <= old(sender.nrtx) + 1
      ensures forall o :: o in receiver.Footprint() ==> o in old(receiver.Footprint())
    {
      hide Wrap, Inv, Receiver.Look, ScaledWindow, Shl, WindowField, Step, Sender.Valid, Receiver.Valid;
      ReadAll();
      var ackSeq, window := EmitAck(sender.wscalePeer);
      WindowSurvives(receiver.rcvWnd, sender.wscalePeer);
      WindowNow();
      RecentEnough();
      KeptFits();
      var dup := AckArrives(ackSeq, peerSeq, window, 0, receiver.nxt);
    }

    lemma WindowNow()
      requires Valid() && Machine().merged == 0
      ensures receiver.rcvWnd == if receiver.settled then receiver.size else INITIAL_WINDOW
    {}

    /** Nothing is lost for good: whatever the network has done so far, as long as a retry is left
        timeouts, retransmissions, reads and acknowledgements bring the transfer to its end. Every
        round acknowledges something new, so the retries start over. */
    method Finish(peerSeq: u32)
      requires Valid() && (sender.sndbuf != null ==> Able() && sender.nrtx < MAX_RTX)
      modifies this`packets, this`acks, this`got, receiver, receiver.Footprint()
      modifies sender`sndUna, sender`sndNxt, sender`nxt, sender`sndWnd, sender`peerWnd, sender`cwnd, sender`ssthresh
      modifies sender`nrtx, sender`wl1, sender`wl2, sender`lastAckSeq, sender`dupAcks, sender.sndbuf
      ensures Valid() && sender.Written() == old(sender.Written())
      ensures got == sender.Written() && sender.Una() == |sender.Written()|
    {
      hide Wrap, Inv, Receiver.Look, Sender.Valid, Receiver.Valid, Able, Step;
      ghost var written, objects := sender.Written(), receiver.Footprint();
      while sender.sndbuf != null && sender.sndbuf.len > 0
        invariant Valid() && (sender.sndbuf != null ==> Able() && sender.nrtx < MAX_RTX) && sender.Written() == written
        invariant sender.sndbuf == old(sender.sndbuf)
        invariant forall o :: o in receiver.Footprint() && o !in objects ==> fresh(o)
        decreases |written| - sender.Una()
      {
        sender.LenIsRest();
        var seqNum, payload;
        ghost var p;
        seqNum, payload, p := Resend();
        Receive(seqNum, payload, p);
        Confirm(peerSeq);
      }
      ReadAll();
      AllRead();
    }
  }

  lemma InvBounds(v: World)
    requires Inv(v)
    ensures v.una <= |v.read| + v.merged <= |v.written| && v.nxt <= |v.written|
    ensures forall a :: a in v.acks ==> a <= |v.written|
  {}

  lemma DeliverIsStep(v: World, u: View, w: View, size: nat, p: Packet, r: int, put: int, kept: bool)
    requires Inv(v) && p in v.packets && u.removed == |v.read| && u.bytes == v.held && u.merged == v.merged
    requires Processed(u, w, size, false, p.payload, p.pos, r, put, kept)
    requires 0 <= w.merged && Reaches(w.bytes, w.removed, w.merged)
    ensures w.removed == u.removed
    ensures var x := v.(held := w.bytes, merged := w.merged); Step(v, x, Arrive(p)) && Inv(x)
  {
    hide Inv, Reaches, Payload, Put, Run;
    var x := v.(held := w.bytes, merged := w.merged);
    assert Arrives(v, x, p);
    StepKeepsInv(v, x, Arrive(p));
  }

  lemma ReadIsStep(v: World, u: View, w: View, len: int, r: int, out: seq<byte>)
    requires Inv(v) && u.removed == |v.read| && u.bytes == v.held && u.merged == v.merged
    requires Receivers.Read(u, w, len, r, out, true)
    ensures 0 <= w.merged && w.removed == |v.read + out|
    ensures |out| == if len < 0 then 0 else Min(len, u.merged)
    ensures var x := v.(read := v.read + out, held := w.bytes, merged := w.merged); Step(v, x, Read(|out|)) && Inv(x)
  {
    hide Inv, Reaches;
    var x := v.(read := v.read + out, held := w.bytes, merged := w.merged);
    assert out == Stretch(v.held, |v.read|, |out|);
    assert Reads(v, x, |out|);
    StepKeepsInv(v, x, Read(|out|));
  }

  lemma NothingIsStep(v: World)
    ensures Step(v, v, Nothing)
  {}

  lemma SendIsStep(v: World, base: int, segs: seq<Segment>, b: int)
    requires Inv(v) && v.una <= v.nxt && Covers(v.written, base, v.nxt, segs, b) && b <= |v.written|
    ensures var e, w := Send(PacketsOf(segs, b)), v.(nxt := b, packets := v.packets + PacketsOf(segs, b));
      Step(v, w, e) && Inv(w)
  {
    hide Inv, Covers, PacketsOf, Genuine;
    var sent := PacketsOf(segs, b);
    var w := v.(nxt := b, packets := v.packets + sent);
    PacketsAreGenuine(v.written, base, v.nxt, segs, b);
    assert Sends(v, w, sent);
    StepKeepsInv(v, w, Send(sent));
  }
}
