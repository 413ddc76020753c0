/** A segment with its bytes: the handlers of the states that take data, as the connection model sees
    them, joined to the receiver. */
module SegmentPasses {
  import opened SeqArith
  import opened TcpState
  import opened SchedLists
  import opened Connections
  import Receivers

  /** Whatever becomes of a segment near the window, its end stays near the number awaited. */
  lemma StaysNear(v: Receivers.View, w: Receivers.View, size: nat, discards: bool, payload: seq<byte>, pos: int,
      r: int, put: int, kept: bool)
    requires v.Consistent(size) && w.Consistent(size) && Receivers.INITIAL_WINDOW + size < HALF / 2
    requires Receivers.Processed(v, w, size, discards, payload, pos, r, put, kept) && v.Near(pos + |payload|)
    ensures -HALF < pos + |payload| - w.nxt < HALF
  {}

  /** user_tcp_process_payload, if the segment gets that far and carries any. */
  method TakeBytes(state: State, r: Receivers.Receiver, p: Packet, payload: seq<byte>, d0: DataPath, ghost pos: int)
    returns (d: DataPath)
    requires r.Valid() && p.len == |payload| < 0x1_0000 && p.seqNum == r.Num(pos) && r.Look().Near(pos + |payload|)
    modifies r`rcvNxt, r`rcvWnd, r`recvbuf, r`nxt, r`settled, r.Footprint()
    ensures r.Valid() && forall o :: o in r.Footprint() && o !in old(r.Footprint()) ==> fresh(o)
    ensures Takes(state, p, old(r.rcvNxt)) ==> Awaited(p, old(r.rcvNxt), d) == r.rcvNxt
    ensures !Takes(state, p, old(r.rcvNxt)) ==> r.rcvNxt == old(r.rcvNxt)
    ensures p.End() == r.Num(pos + |payload|) && -HALF < pos + |payload| - r.nxt < HALF
  {
    hide Wrap, Takes, SeqLt, Receivers.Receiver.BufferValid, Receivers.Processed;
    d := d0;
    Onward(r.irs + 1, pos, |payload|);
    if Takes(state, p, r.rcvNxt) && p.len > 0 {
      ghost var v, kept := r.Look(), r.Keeps();
      var moved, put := r.ProcessPayload(state, payload, p.seqNum, pos);
      StaysNear(v, r.Look(), r.size, Receivers.Discards(state), payload, pos, moved, put, kept || r.Look().spans == []);
      d := d0.(rcvNxt := r.rcvNxt, moved := moved == 1, hasRecvbuf := r.recvbuf != null, edge := r.rcvNxt);
    }
  }

  /** Exactly then the peer's FIN is consumed: the segment gets that far, carries it, and its place in
      the stream is the first one not received, so that every byte before it has been received. */
  method ServeSegment(tcp: Manager, s: Stream, r: Receivers.Receiver, p: Packet, payload: seq<byte>, d0: DataPath,
      curTs: u32, ghost pos: int)
    requires tcp.Valid() && s in tcp.streams && !s.peerFin
    requires s.state == ESTABLISHED || s.state == FIN_WAIT_1 || s.state == FIN_WAIT_2
    requires r.Valid() && s.rcvNxt == r.rcvNxt
    requires p.len == |payload| < 0x1_0000 && p.seqNum == r.Num(pos) && r.Look().Near(pos + |payload|)
    modifies tcp, s, r`rcvNxt, r`rcvWnd, r`recvbuf, r`nxt, r`settled, r.Footprint()
    ensures tcp.Valid() && r.Valid()
    ensures s.peerFin <==> old(Takes(s.state, p, s.rcvNxt)) && p.fin && pos + |payload| == r.nxt
    ensures s.rcvNxt == if s.peerFin then r.Num(r.nxt + 1) else r.rcvNxt
    ensures r.nxt == r.Look().removed + r.Look().merged && r.rcvNxt == r.Num(r.nxt)
    ensures forall q :: r.Look().removed <= q < r.nxt ==> q in r.Look().bytes
  {
    hide Manager.Valid, Wrap, Takes, SeqLt, Receivers.Receiver.Valid, Receivers.Receiver.Look;
    var d := TakeBytes(s.state, r, p, payload, d0, pos);
    r.MergedIsRun();
    r.NextNumber();
    OrderAgrees(r.irs + 1 + (pos + |payload|), r.irs + 1 + r.nxt);
    Onward(r.irs + 1, pos + |payload|, 1);
    Dispatch(tcp, s, p, d, curTs);
  }

  /** Lines 1936-1966 of src/user_tcp.c. */
  method Dispatch(tcp: Manager, s: Stream, p: Packet, d: DataPath, curTs: u32)
    requires tcp.Valid() && s in tcp.streams
    requires s.state == ESTABLISHED || s.state == FIN_WAIT_1 || s.state == FIN_WAIT_2
    modifies tcp, s
    ensures tcp.Valid() && s.rcvNxt == NextNumber(old(s.state), p, old(s.rcvNxt), d)
    ensures s.peerFin == (old(s.peerFin) || FinInOrder(old(s.state), p, old(s.rcvNxt), d))
  {
    hide Manager.Valid, Wrap, Takes, NextNumber, FinInOrder, AfterFinWait1, OnSegment;
    if s.state == ESTABLISHED {
      HandleEstablished(tcp, s, p, d, curTs);
    } else if s.state == FIN_WAIT_1 {
      HandleFinWait1(tcp, s, p, d, curTs);
    } else {
      HandleFinWait2(tcp, s, p, d, curTs);
    }
  }
}
