/** The connection state machine: the segment handlers of src/user_tcp.c:911-1393, resets, and the
    draining of the application's close and reset requests. */
module Connections {
  import opened SeqArith
  import opened TcpState
  import opened SchedLists
  import opened Lifecycle
  import opened Scheduling
  import opened Sending

  /** The parts of a segment that the state machine looks at. */
  datatype Packet = Packet(seqNum: u32, ackSeq: u32, len: nat, syn: bool, ack: bool, fin: bool, rst: bool, window: nat)
  {
    function End(): u32 {
      Wrap(seqNum + len)
    }
  }

  /** What the data path makes of the segment, as the Receiver and Sender models compute it:
      `rcv_nxt` and whether it has moved, `snd_nxt` and `snd_una`, whether a fast retransmission
      is due, whether everything sent is acknowledged, and whether bytes were released; `hasRecvbuf`
      and `edge` describe the receive buffer after the payload. */
  datatype DataPath = DataPath(rcvNxt: u32, moved: bool, hasRecvbuf: bool, edge: u32, sndNxt: u32, sndUna: u32,
    resend: bool, drained: bool, released: bool)

  /** What the environment adds to a segment: the receive window, whether the accept queue is
      full, whether the application has already asked for a reset. */
  datatype Env = Env(curTs: u32, rcvWnd: u32, acceptFull: bool, resetting: bool)

  /** The number that is awaited when the FIN of a segment is looked at. */
  function Awaited(p: Packet, rcvNxt: u32, d: DataPath): u32 {
    if p.len > 0 then d.rcvNxt else rcvNxt
  }

  /** The segment gets as far as its payload and FIN. */
  predicate Takes(state: State, p: Packet, rcvNxt: u32) {
    || (state == ESTABLISHED && !p.syn)
    || (state == FIN_WAIT_1 && !SeqLt(p.seqNum, rcvNxt) && p.ack)
    || (state == FIN_WAIT_2 && p.ack)
  }

  /** ... and its FIN is at exactly the number awaited. */
  predicate FinInOrder(state: State, p: Packet, rcvNxt: u32, d: DataPath) {
    Takes(state, p, rcvNxt) && p.fin && p.End() == Awaited(p, rcvNxt, d)
  }

  /** The number awaited afterwards. */
  function NextNumber(state: State, p: Packet, rcvNxt: u32, d: DataPath): u32 {
    if FinInOrder(state, p, rcvNxt, d) then Wrap(p.End() + 1)
    else if Takes(state, p, rcvNxt) then Awaited(p, rcvNxt, d) else rcvNxt
  }

  /** What one segment may do to a connection: one arc of the diagram; our FIN is neither sent nor
      renumbered; it counts as acknowledged only by the segment with `fss + 1`, and only if it was
      sent before; the peer's FIN counts only if the segment carries it at exactly the number
      awaited, which is one more afterwards; the states that stand for one of these are entered
      only with it; and no segment begins or forgets a close of the application. */
  ghost predicate OnSegment(v: View, w: View, p: Packet, d: DataPath) {
    && Arc(v.state, w.state) && w.finSent == v.finSent && w.fss == v.fss
    && w.request == v.request
    && (v.finAcked ==> w.finAcked) && (v.peerFin ==> w.peerFin)
    && (w.finAcked && !v.finAcked ==> v.finSent && p.ack && p.ackSeq == Wrap(v.fss + 1))
    && (w.peerFin && !v.peerFin ==>
          p.fin && p.End() == Awaited(p, v.rcvNxt, d) && w.rcvNxt == Wrap(p.End() + 1))
    && (w.state != v.state ==> Entered(v.state, w))
  }

  ghost predicate Entered(from: State, w: View) {
    && w.state != FIN_WAIT_1 && w.state != LAST_ACK
    && (w.state == FIN_WAIT_2 ==> w.finAcked)
    && (w.state == CLOSING ==> w.peerFin)
    && (w.state == TIME_WAIT ==> if from == FIN_WAIT_2 then w.peerFin else w.finAcked)
  }

  /** One arc that has nothing to do with a FIN. */
  ghost predicate Plain(v: View, w: View) {
    && w == v.(state := w.state, rcvNxt := w.rcvNxt) && Arc(v.state, w.state)
    && (w.state != v.state ==> !Closing(w.state))
  }

  lemma PlainIsLegal(v: View, w: View, p: Packet, d: DataPath)
    requires Plain(v, w)
    ensures OnSegment(v, w, p, d)
  {}

  // ---- what a segment makes of a connection, as values

  function Reasoned(c: Conn, reason: CloseReason): Conn {
    c.(ending := c.ending.(reason := reason))
  }

  function Watched(c: Conn): Conn {
    c.(clock := c.clock.(watched := true))
  }

  function Placed(c: Conn, nxt: u32, una: u32): Conn {
    c.(num := Numbers(nxt, una))
  }

  function Awaiting(c: Conn, rcvNxt: u32): Conn {
    c.(view := c.view.(rcvNxt := rcvNxt))
  }

  /** In TIME_WAIT, or in CLOSED by line 1296, from `ts` on. */
  function Lingering(c: Conn, to: State, ts: u32): Conn {
    Parked(Moved(c, to), ts)
  }

  function Parked(c: Conn, ts: u32): Conn {
    c.(clock := c.clock.(lingers := true, expire := ts, timed := false))
  }

  /** A SYN is answered by a control packet. */
  function Greeted(c: Conn): Conn {
    Queued(Moved(if c.view.state == LISTEN then Awaiting(c, Wrap(c.view.rcvNxt + 1)) else c, SYN_RCVD))
  }

  /** An acknowledgement of anything but our SYN. */
  predicate Foreign(c: Conn, p: Packet) {
    p.ack && (SeqLeq(p.ackSeq, c.iss) || SeqGt(p.ackSeq, c.num.nxt))
  }

  /** Nobody waits for the answer to our SYN any more. */
  function Orphaned(c: Conn): Conn {
    if c.owner.socket then c else Off(c)
  }

  function Synchronized(c: Conn, p: Packet): Conn {
    Awaiting(Rewinding(Placed(c, p.ackSeq, c.num.una)), Wrap(p.seqNum + 1))
  }

  function AcceptedBy(c: Conn, p: Packet): Conn {
    var d := Stopped(Moved(Synchronized(c, p), ESTABLISHED));
    if c.owner.socket then Queued(Watched(d)) else Off(Reasoned(d, ACTIVE_CLOSE))
  }

  function TakenAs(c: Conn, p: Packet): Conn {
    if p.rst && p.ack then Orphaned(Reasoned(Moved(c, CLOSE_WAIT), RESET))
    else if p.syn && p.ack then AcceptedBy(c, p)
    else Queued(Moved(Placed(c, c.iss, c.num.una), SYN_RCVD))
  }

  function SynSentTo(c: Conn, p: Packet): Conn {
    if Foreign(c, p) then c else TakenAs(if p.ack then Placed(c, c.num.nxt, Wrap(c.num.una + 1)) else c, p)
  }

  /** The handshake is over. */
  function ConnectedBy(c: Conn, ackSeq: u32, full: bool): Conn {
    var d := Awaiting(Placed(c.(clock := c.clock.(nrtx := 0)), ackSeq, Wrap(c.num.una + 1)), Wrap(c.irs + 1));
    var e := Watched(Stopped(Moved(d, ESTABLISHED)));
    if full then Queued(Over(e, NOT_ACCEPTED)) else e
  }

  function SynRcvdTo(c: Conn, p: Packet, full: bool): Conn {
    if !p.ack then Queued(Placed(c, c.iss, c.num.una))
    else if p.ackSeq == Wrap(c.iss + 1) then ConnectedBy(c, p.ackSeq, full) else c
  }

  /** The payload and the acknowledgement of it. */
  function PaidIn(c: Conn, p: Packet, d: DataPath): Conn {
    if p.len > 0 then Owing(Awaiting(c, d.rcvNxt).(inbox := Inbox(d.hasRecvbuf, d.edge)),
      if d.moved then AGGREGATE else NOW) else c
  }

  /** The acknowledgement that the segment carries. */
  function AckedBy(c: Conn, d: DataPath): Conn {
    var e := Placed(c, d.sndNxt, d.sndUna);
    var f := e.(links := e.links.(sending := !d.drained && (d.resend || e.links.sending)));
    if d.released then Rewinding(f) else f
  }

  function AckTaken(c: Conn, d: DataPath): Conn {
    if c.owner.sndbuf then AckedBy(c, d) else c
  }

  /** The peer's FIN is consumed. */
  function FinTaken(c: Conn): Conn {
    c.(view := c.view.(rcvNxt := Wrap(c.view.rcvNxt + 1), peerFin := true))
  }

  function FinAt(c: Conn, end: u32): Conn {
    if end == c.view.rcvNxt then Queued(Moved(FinTaken(c), CLOSE_WAIT)) else Owing(c, NOW)
  }

  function EstablishedTo(c: Conn, p: Packet, d: DataPath): Conn {
    if p.syn then Queued(Placed(c, p.ackSeq, c.num.una))
    else
      var e := if p.ack then AckTaken(PaidIn(c, p, d), d) else PaidIn(c, p, d);
      if p.fin then FinAt(e, p.End()) else e
  }

  function CloseWaitTo(c: Conn, p: Packet, d: DataPath): Conn {
    if SeqLt(p.seqNum, c.view.rcvNxt) then Queued(c) else AckTaken(c, d)
  }

  /** Our FIN has been acknowledged. */
  function FinAcknowledged(c: Conn): Conn {
    c.(view := c.view.(finAcked := true))
  }

  function Finished(c: Conn): Conn {
    Off(Over(Rewinding(Placed(FinAcknowledged(c), c.num.nxt, Wrap(c.num.una + 1))), PASSIVE_CLOSE))
  }

  function LastAckTo(c: Conn, p: Packet, d: DataPath): Conn {
    var e := if p.ack then AckTaken(c, d) else c;
    if SeqLt(p.seqNum, c.view.rcvNxt) then c
    else if p.ack && !c.view.finSent then e
    else if AcksFin(p, c.view.finSent, c.view.fss) then Finished(e) else Queued(e)
  }

  function HalfClosed(c: Conn, ackSeq: u32): Conn {
    var nxt := if SeqGt(ackSeq, c.num.nxt) then ackSeq else c.num.nxt;
    Moved(Stopped(FinAcknowledged(Placed(c.(clock := c.clock.(nrtx := 0)), nxt, ackSeq))), FIN_WAIT_2)
  }

  function BothFinished(c: Conn, ts: u32): Conn {
    var d := FinTaken(c);
    Queued(if c.view.state == FIN_WAIT_1 then Moved(d, CLOSING) else Lingering(d, CLOSED, ts))
  }

  function FinWait1To(c: Conn, p: Packet, d: DataPath, ts: u32): Conn {
    if SeqLt(p.seqNum, c.view.rcvNxt) then Queued(c)
    else if !p.ack then c
    else
      var e := AckTaken(c, d);
      var f := PaidIn(if AcksFin(p, c.view.finSent, c.view.fss) then HalfClosed(e, p.ackSeq) else e, p, d);
      if p.fin && p.End() == f.view.rcvNxt then BothFinished(f, ts) else f
  }

  function FinWait2To(c: Conn, p: Packet, d: DataPath, ts: u32): Conn {
    if !p.ack then c
    else
      var e := PaidIn(AckTaken(c, d), p, d);
      if p.fin && p.End() == e.view.rcvNxt then Queued(Lingering(FinTaken(e), TIME_WAIT, ts)) else e
  }

  function ClosingTo(c: Conn, p: Packet, d: DataPath, ts: u32): Conn {
    var e := if p.ack then AckTaken(c, d) else c;
    if AcksFin(p, c.view.finSent, c.view.fss)
      then Lingering(Rewinding(FinAcknowledged(Placed(e, p.ackSeq, p.ackSeq))), TIME_WAIT, ts) else e
  }

  function TimeWaitTo(c: Conn, ts: u32): Conn {
    Queued(if c.clock.lingers then Lingering(c, TIME_WAIT, ts) else c)
  }

  /** A repeated SYN is answered again; the acknowledgement that completes the handshake may bring data
      with it. */
  function PassiveTo(c: Conn, p: Packet, d: DataPath, full: bool): Conn {
    var e := SynRcvdTo(c, p, full);
    if p.syn && p.seqNum == c.irs then Greeted(c)
    else if p.len > 0 && e.view.state == ESTABLISHED then EstablishedTo(e, p, d) else e
  }

  /** The states behind the handshake. */
  function Late(c: Conn, p: Packet, d: DataPath, env: Env): Conn {
    match c.view.state
    case ESTABLISHED => EstablishedTo(c, p, d)
    case CLOSE_WAIT => CloseWaitTo(c, p, d)
    case LAST_ACK => LastAckTo(c, p, d)
    case FIN_WAIT_1 => FinWait1To(c, p, d, env.curTs)
    case FIN_WAIT_2 => FinWait2To(c, p, d, env.curTs)
    case CLOSING => ClosingTo(c, p, d, env.curTs)
    case TIME_WAIT => TimeWaitTo(c, env.curTs)
    case _ => c
  }

  /** The switch of user_tcp_process (lines 1906-1986). */
  function HandledBy(c: Conn, p: Packet, d: DataPath, env: Env): Conn {
    match c.view.state
    case LISTEN => if p.syn then Greeted(c) else c
    case SYN_SENT => SynSentTo(c, p)
    case SYN_RCVD => PassiveTo(c, p, d, env.acceptFull)
    case _ => Late(c, p, d, env)
  }

  /** The states that a reset ends at once. */
  predicate Finishing(s: State) {
    s == FIN_WAIT_1 || s == FIN_WAIT_2 || s == LAST_ACK || s == CLOSING || s == TIME_WAIT
  }

  /** A reset, once the handshake has begun (lines 1561-1611). */
  function ResetBy(c: Conn, ackSeq: u32, closing: bool): Conn {
    if c.view.state == SYN_RCVD then (if ackSeq == c.num.nxt then Off(Over(c, RESET)) else c)
    else if Finishing(c.view.state) then Off(Over(c, ACTIVE_CLOSE))
    else if closing then c else Reasoned(Moved(c, CLOSE_WAIT), RESET)
  }

  /** A segment outside the window is dropped; unless it is a reset it is answered. */
  function RejectedBy(c: Conn, p: Packet, ts: u32): Conn {
    if p.rst then c
    else if c.view.state == ESTABLISHED
      then Owing(c, if SeqLeq(p.seqNum, c.view.rcvNxt) || Wrap(p.seqNum + 1) == c.view.rcvNxt then AGGREGATE else NOW)
    else Queued(if c.view.state == TIME_WAIT then Lingering(c, TIME_WAIT, ts) else c)
  }

  /** The segment that carries an acknowledgement acknowledges the FIN that has been sent. */
  predicate AcksFin(p: Packet, isFinSent: bool, fss: u32) {
    p.ack && isFinSent && p.ackSeq == Wrap(fss + 1)
  }

  // ---- single fields

  method Place(s: Stream, nxt: u32, una: u32)
    modifies s`sndNxt, s`sndUna
    ensures s.sndNxt == nxt && s.sndUna == una && Whole(s) == Placed(old(Whole(s)), nxt, una)
  {
    hide Look, LinksOf, ClockOf, InboxOf, EndingOf, OwnerOf;
    s.sndNxt, s.sndUna := nxt, una;
  }

  method Await(s: Stream, rcvNxt: u32)
    modifies s`rcvNxt
    ensures s.rcvNxt == rcvNxt && Whole(s) == Awaiting(old(Whole(s)), rcvNxt)
  {
    hide NumbersOf, LinksOf, ClockOf, InboxOf, EndingOf, OwnerOf;
    s.rcvNxt := rcvNxt;
  }

  method TakeFin(s: Stream)
    modifies s`rcvNxt, s`peerFin
    ensures s.rcvNxt == Wrap(old(s.rcvNxt) + 1) && s.peerFin && Whole(s) == FinTaken(old(Whole(s)))
  {
    hide NumbersOf, LinksOf, ClockOf, InboxOf, EndingOf, OwnerOf;
    s.rcvNxt := Wrap(s.rcvNxt + 1);
    s.peerFin := true;
  }

  ghost method Acknowledge(s: Stream)
    modifies s`finAcked
    ensures s.finAcked && Whole(s) == FinAcknowledged(old(Whole(s)))
  {
    hide NumbersOf, LinksOf, ClockOf, InboxOf, EndingOf, OwnerOf;
    s.finAcked := true;
  }

  method GiveReason(s: Stream, reason: CloseReason)
    modifies s`closeReason
    ensures s.closeReason == reason && Whole(s) == Reasoned(old(Whole(s)), reason)
  {
    hide Look, NumbersOf, LinksOf, ClockOf, InboxOf, OwnerOf;
    s.closeReason := reason;
  }

  /** The state changes to one in which no TIME_WAIT timer may run. */
  method Enter(tcp: Manager, s: Stream, to: State)
    requires tcp.Timers() && s in tcp.streams && !s.onTimewaitList
    requires s.onTimeoutList ==> to != LISTEN && to != SYN_SENT && to != SYN_RCVD
    modifies s`state
    ensures tcp.Timers() && s.state == to && Whole(s) == Moved(old(Whole(s)), to)
  {
    hide Manager.RtoOk, Manager.TimewaitOk, Manager.TimeoutOk;
    hide NumbersOf, LinksOf, ClockOf, InboxOf, EndingOf, OwnerOf;
    s.state := to;
  }

  /** The state changes to one in which the stream may linger. */
  method Settle(tcp: Manager, s: Stream, to: State)
    requires tcp.Timers() && s in tcp.streams && (to == TIME_WAIT || to == CLOSED)
    modifies s`state
    ensures tcp.Timers() && s.state == to && Whole(s) == Moved(old(Whole(s)), to)
  {
    hide Manager.RtoOk, Manager.TimewaitOk, Manager.TimeoutOk;
    hide NumbersOf, LinksOf, ClockOf, InboxOf, EndingOf, OwnerOf;
    s.state := to;
  }

  method Park(tcp: Manager, s: Stream, curTs: u32)
    requires tcp.Timers() && s in tcp.streams && (s.state == TIME_WAIT || s.state == CLOSED)
    modifies tcp`timewaitList, tcp`timewaitListCnt, tcp`rtoList, tcp`rtoListCnt, s`onTimewaitList, s`onRtoIdx
    modifies s`tsTwExpire
    ensures tcp.Timers() && s.onTimewaitList && s.onRtoIdx < 0 && s.tsTwExpire == curTs
    ensures tcp.timewaitList == (if old(s.onTimewaitList) then Without(old(tcp.timewaitList), s)
      else old(tcp.timewaitList)) + [s]
    ensures Whole(s) == Parked(old(Whole(s)), curTs)
  {
    hide Manager.RtoOk, Manager.TimewaitOk, Manager.TimeoutOk;
    hide Look, NumbersOf, LinksOf, InboxOf, EndingOf, OwnerOf;
    tcp.AddToTimewaitList(s, curTs);
  }

  method Linger(tcp: Manager, s: Stream, to: State, curTs: u32)
    requires tcp.Timers() && s in tcp.streams && (to == TIME_WAIT || to == CLOSED)
    modifies s`state, tcp`timewaitList, tcp`timewaitListCnt, tcp`rtoList, tcp`rtoListCnt, s`onTimewaitList
    modifies s`onRtoIdx, s`tsTwExpire
    ensures tcp.Timers() && s.state == to && s.onTimewaitList && s.onRtoIdx < 0 && s.tsTwExpire == curTs
    ensures tcp.timewaitList == (if old(s.onTimewaitList) then Without(old(tcp.timewaitList), s)
      else old(tcp.timewaitList)) + [s]
    ensures Whole(s) == Lingering(old(Whole(s)), to, curTs)
  {
    hide Manager.Timers, Whole, Moved, Parked, Without;
    Settle(tcp, s, to);
    Park(tcp, s, curTs);
  }

  method Watch(tcp: Manager, s: Stream)
    requires tcp.Timers() && s in tcp.streams && !s.onTimeoutList && s.state != LISTEN && s.state != SYN_SENT &&
      s.state != SYN_RCVD
    modifies tcp`timeoutList, tcp`timeoutListCnt, s`onTimeoutList
    ensures tcp.Timers() && s.onTimeoutList && Whole(s) == Watched(old(Whole(s)))
  {
    hide Manager.RtoOk, Manager.TimewaitOk, Manager.TimeoutOk;
    hide Look, NumbersOf, LinksOf, InboxOf, EndingOf, OwnerOf;
    tcp.AddToTimeoutList(s);
  }

  /** A stream that is not yet established is neither lingering nor watched; one that is not done
      does not linger. */
  lemma EarlyIsIdle(tcp: Manager, s: Stream)
    requires tcp.Timers() && s in tcp.streams
    ensures s.state == LISTEN || s.state == SYN_SENT || s.state == SYN_RCVD ==> !s.onTimeoutList
    ensures s.state != TIME_WAIT && s.state != CLOSED ==> !s.onTimewaitList
  {}

  // ---- the handlers

  /** user_tcp_handle_listen; false if its assertion fails. */
  method HandleListen(tcp: Manager, s: Stream, p: Packet) returns (ok: bool)
    requires tcp.Valid() && s in tcp.streams && (s.state == LISTEN || s.state == SYN_RCVD)
    modifies s`state, s`rcvNxt, tcp`controlList, tcp`controlListCnt, s`onControlList
    ensures tcp.Valid() && Plain(old(Look(s)), Look(s))
    ensures ok <==> p.syn
    ensures Whole(s) == if p.syn then Greeted(old(Whole(s))) else old(Whole(s))
    ensures if ok then s.state == SYN_RCVD && s.onControlList else Look(s) == old(Look(s))
    ensures s.rcvNxt == if ok && old(s.state) == LISTEN then Wrap(old(s.rcvNxt) + 1) else old(s.rcvNxt)
  {
    hide Manager.Queues, Manager.Timers, Whole, Queued, Awaiting, Moved, Wrap;
    ghost var c := Whole(s);
    Shows(s);
    EarlyIsIdle(tcp, s);
    if p.syn {
      if s.state == LISTEN {
        Await(s, Wrap(s.rcvNxt + 1));
      }
      Enter(tcp, s, SYN_RCVD);
      WantControl(tcp, s);
      ok := true;
    } else {
      ok := false;
    }
  }

  method Greet(tcp: Manager, s: Stream)
    requires tcp.Timers() && s in tcp.streams && (s.state == SYN_SENT || s.state == SYN_RCVD)
    modifies tcp`rtoList, tcp`rtoListCnt, s`onRtoIdx, s`state
    ensures tcp.Timers() && s.state == ESTABLISHED && s.onRtoIdx < 0 && !s.onTimeoutList && !s.onTimewaitList
    ensures Whole(s) == Stopped(Moved(old(Whole(s)), ESTABLISHED))
  {
    hide Manager.Timers, Whole;
    EarlyIsIdle(tcp, s);
    StopTimer(tcp, s);
    Enter(tcp, s, ESTABLISHED);
  }

  /** The handshake is over: no retransmission timer, and activity is watched from now on. */
  method Establish(tcp: Manager, s: Stream)
    requires tcp.Timers() && s in tcp.streams && (s.state == SYN_SENT || s.state == SYN_RCVD)
    modifies tcp`rtoList, tcp`rtoListCnt, s`onRtoIdx, s`state, tcp`timeoutList, tcp`timeoutListCnt, s`onTimeoutList
    ensures tcp.Timers() && s.state == ESTABLISHED && s.onRtoIdx < 0 && s.onTimeoutList && !s.onTimewaitList
    ensures Whole(s) == Watched(Stopped(Moved(old(Whole(s)), ESTABLISHED)))
  {
    hide Manager.Timers, Whole, Watched, Stopped, Moved;
    Greet(tcp, s);
    Watch(tcp, s);
  }

  /** An acknowledgement of anything but the SYN is dropped. */
  function AfterSynSent(p: Packet, iss: u32, sndNxt: u32): State {
    if p.ack && (SeqLeq(p.ackSeq, iss) || SeqGt(p.ackSeq, sndNxt)) then SYN_SENT
    else if p.rst && p.ack then CLOSE_WAIT
    else if p.syn && p.ack then ESTABLISHED
    else SYN_RCVD
  }

  /** user_tcp_handle_syn_sent. A stream that no socket refers to any more is destroyed once it is
      answered; the result is false if the source then goes on with it. */
  method HandleSynSent(tcp: Manager, s: Stream, p: Packet, curTs: u32) returns (alive: bool)
    requires tcp.Valid() && s in tcp.streams && s.state == SYN_SENT
    modifies tcp, s
    ensures old(tcp.rtoNowIdx) == 0 ==> tcp.rtoNowIdx == 0
    ensures tcp.log == old(tcp.log) && tcp.room == old(tcp.room) && s.peerWnd == old(s.peerWnd)
    ensures tcp.Valid() && Whole(s) == SynSentTo(old(Whole(s)), p) && s.hasSocket == old(s.hasSocket)
    ensures Plain(old(Look(s)), Look(s))
    ensures s.state == AfterSynSent(p, s.iss, old(s.sndNxt))
    ensures tcp.streams == if !s.hasSocket && (s.state == CLOSE_WAIT || s.state == ESTABLISHED)
      then old(tcp.streams) - {s} else old(tcp.streams)
    ensures alive <==> s.hasSocket || s.state != ESTABLISHED
    ensures s.state == ESTABLISHED ==> s.sndNxt == p.ackSeq && s.rcvNxt == Wrap(p.seqNum + 1) && s.onRtoIdx < 0
    ensures s.state == ESTABLISHED && alive ==> s.onTimeoutList && s.onControlList
    ensures s.state == SYN_RCVD ==> s.sndNxt == s.iss && s.onControlList
    ensures s.sndUna == if s.state != SYN_SENT && p.ack then Wrap(old(s.sndUna) + 1) else old(s.sndUna)
    ensures s.state == CLOSE_WAIT ==> s.closeReason == RESET
  {
    hide Manager.Valid, Whole, Look, SynSentTo, Wrap, AfterSynSent, Plain;
    ghost var c := Whole(s);
    ShowsAll(s);
    SynSentMeans(c, p);
    alive := AnswerToSyn(tcp, s, p, curTs);
    ShowsAll(s);
  }

  lemma SynSentMeans(c: Conn, p: Packet)
    requires c.view.state == SYN_SENT
    ensures var e := SynSentTo(c, p);
      && Plain(c.view, e.view) && e.view.state == AfterSynSent(p, c.iss, c.num.nxt) && e.owner == c.owner
      && (e.view.state == ESTABLISHED ==>
            e.num.nxt == p.ackSeq && e.view.rcvNxt == Wrap(p.seqNum + 1) && !e.clock.timed)
      && (e.view.state == ESTABLISHED && c.owner.socket ==> e.clock.watched && e.links.controlling)
      && (e.view.state == SYN_RCVD ==> e.num.nxt == c.iss && e.links.controlling)
      && e.num.una == (if e.view.state != SYN_SENT && p.ack then Wrap(c.num.una + 1) else c.num.una)
      && (e.view.state == CLOSE_WAIT ==> e.ending.reason == RESET)
  {
    hide Wrap, SeqLeq, SeqGt;
  }

  /** ... with the stream as a value. */
  method AnswerToSyn(tcp: Manager, s: Stream, p: Packet, curTs: u32) returns (alive: bool)
    requires tcp.Valid() && s in tcp.streams && s.state == SYN_SENT
    modifies tcp, s
    ensures old(tcp.rtoNowIdx) == 0 ==> tcp.rtoNowIdx == 0
    ensures tcp.log == old(tcp.log) && tcp.room == old(tcp.room) && s.peerWnd == old(s.peerWnd)
    ensures tcp.Valid() && Whole(s) == SynSentTo(old(Whole(s)), p) && s.hasSocket == old(s.hasSocket)
    ensures var to := AfterSynSent(p, s.iss, old(s.sndNxt));
      && (alive <==> s.hasSocket || to != ESTABLISHED)
      && tcp.streams == if !s.hasSocket && (to == CLOSE_WAIT || to == ESTABLISHED) then old(tcp.streams) - {s}
        else old(tcp.streams)
  {
    hide Manager.Queues, Manager.Timers, SeqLeq, SeqGt, Wrap, Whole, Placed, TakenAs;
    ShowsNumbers(s);
    if p.ack {
      if SeqLeq(p.ackSeq, s.iss) || SeqGt(p.ackSeq, s.sndNxt) {
        return true;
      }
      Place(s, s.sndNxt, Wrap(s.sndUna + 1));
    }
    alive := TakeAnswer(tcp, s, p, curTs);
  }

  /** Lines 953-1003. */
  method TakeAnswer(tcp: Manager, s: Stream, p: Packet, curTs: u32) returns (alive: bool)
    requires tcp.Valid() && s in tcp.streams && s.state == SYN_SENT
    modifies tcp, s
    ensures old(tcp.rtoNowIdx) == 0 ==> tcp.rtoNowIdx == 0
    ensures tcp.log == old(tcp.log) && tcp.room == old(tcp.room) && s.peerWnd == old(s.peerWnd)
    ensures tcp.Valid() && Whole(s) == TakenAs(old(Whole(s)), p) && s.hasSocket == old(s.hasSocket)
    ensures alive <==> s.hasSocket || !p.syn || !p.ack || p.rst
    ensures tcp.streams == if !s.hasSocket && p.ack && (p.rst || p.syn) then old(tcp.streams) - {s}
      else old(tcp.streams)
  {
    hide Manager.Queues, Manager.Timers, Whole, Placed, AcceptedBy, Orphaned, Reasoned, Moved, Queued;
    EarlyIsIdle(tcp, s);
    if p.rst && p.ack {
      Refused(tcp, s);
      alive := true;
    } else if p.syn && p.ack {
      alive := Accepted(tcp, s, p, curTs);
    } else {
      ShowsNumbers(s);
      Place(s, s.iss, s.sndUna);
      Enter(tcp, s, SYN_RCVD);
      WantControl(tcp, s);
      alive := true;
    }
  }

  /** Lines 953-966. */
  method Refused(tcp: Manager, s: Stream)
    requires tcp.Valid() && s in tcp.streams && s.state == SYN_SENT
    modifies tcp`controlList, tcp`controlListCnt, tcp`sendList, tcp`sendListCnt, tcp`ackList, tcp`ackListCnt
    modifies tcp`rtoList, tcp`rtoListCnt, tcp`timewaitList, tcp`timewaitListCnt, tcp`timeoutList
    modifies tcp`timeoutListCnt, tcp`streams, s`state, s`closeReason
    modifies s`onControlList, s`onSendList, s`onAckList, s`onRtoIdx, s`onTimewaitList, s`onTimeoutList
    ensures tcp.Valid() && Whole(s) == Orphaned(Reasoned(Moved(old(Whole(s)), CLOSE_WAIT), RESET))
    ensures tcp.streams == if s.hasSocket then old(tcp.streams) else old(tcp.streams) - {s}
  {
    hide Manager.Queues, Manager.Timers, Whole, Moved, Reasoned, Off, Without;
    EarlyIsIdle(tcp, s);
    Enter(tcp, s, CLOSE_WAIT);
    GiveReason(s, RESET);
    ShowsOwner(s);
    if !s.hasSocket {
      Drop(tcp, s);
    }
  }

  /** Lines 968-994. */
  method Accepted(tcp: Manager, s: Stream, p: Packet, curTs: u32) returns (alive: bool)
    requires tcp.Valid() && s in tcp.streams && s.state == SYN_SENT
    modifies tcp, s
    ensures old(tcp.rtoNowIdx) == 0 ==> tcp.rtoNowIdx == 0
    ensures tcp.log == old(tcp.log) && tcp.room == old(tcp.room) && s.peerWnd == old(s.peerWnd)
    ensures tcp.Valid() && Whole(s) == AcceptedBy(old(Whole(s)), p) && alive == s.hasSocket == old(s.hasSocket)
    ensures tcp.streams == if alive then old(tcp.streams) else old(tcp.streams) - {s}
  {
    hide Manager.Valid, Whole, Queued, Watched, Stopped, Moved, Reasoned, Off, Synchronized;
    ShowsOwner(s);
    SynchronizedOwner(Whole(s), p);
    Synchronize(tcp, s, p, curTs);
    if s.hasSocket {
      Open(tcp, s);
      return true;
    }
    Abandon(tcp, s);
    return false;
  }

  lemma SynchronizedOwner(c: Conn, p: Packet)
    ensures Stopped(Moved(Synchronized(c, p), ESTABLISHED)).owner == c.owner
  {}

  /** user_tcp_active_open. */
  method Synchronize(tcp: Manager, s: Stream, p: Packet, curTs: u32)
    requires tcp.Valid() && s in tcp.streams && s.state == SYN_SENT
    modifies tcp`rtoList, tcp`rtoListCnt, tcp`rtoNowIdx, tcp`rtoNowTs, s`onRtoIdx, s`nrtx, s`tsRto
    modifies s`sndNxt, s`sndUna, s`rcvNxt
    ensures old(tcp.rtoNowIdx) == 0 ==> tcp.rtoNowIdx == 0
    ensures tcp.Valid() && Whole(s) == Synchronized(old(Whole(s)), p)
  {
    hide Manager.Queues, Manager.Timers, Whole, Placed, Rewinding, Awaiting, Wrap;
    EarlyIsIdle(tcp, s);
    ShowsNumbers(s);
    Place(s, p.ackSeq, s.sndUna);
    UpdateRetransmissionTimer(tcp, s, curTs);
    Await(s, Wrap(p.seqNum + 1));
  }

  /** Lines 971-975 and 991-994. */
  method Open(tcp: Manager, s: Stream)
    requires tcp.Valid() && s in tcp.streams && s.state == SYN_SENT
    modifies tcp`rtoList, tcp`rtoListCnt, s`onRtoIdx, s`state, tcp`timeoutList, tcp`timeoutListCnt, s`onTimeoutList
    modifies tcp`controlList, tcp`controlListCnt, s`onControlList
    ensures tcp.Valid() && Whole(s) == Queued(Watched(Stopped(Moved(old(Whole(s)), ESTABLISHED))))
  {
    hide Manager.Queues, Manager.Timers, Whole, Watched, Stopped, Moved, Queued;
    Establish(tcp, s);
    WantControl(tcp, s);
  }

  /** Lines 976-990: nobody waits for the connection. */
  method Abandon(tcp: Manager, s: Stream)
    requires tcp.Valid() && s in tcp.streams && s.state == SYN_SENT
    modifies tcp`controlList, tcp`controlListCnt, tcp`sendList, tcp`sendListCnt, tcp`ackList, tcp`ackListCnt
    modifies tcp`rtoList, tcp`rtoListCnt, tcp`timewaitList, tcp`timewaitListCnt, tcp`timeoutList
    modifies tcp`timeoutListCnt, tcp`streams, s`state, s`closeReason
    modifies s`onControlList, s`onSendList, s`onAckList, s`onRtoIdx, s`onTimewaitList, s`onTimeoutList
    ensures tcp.Valid() && tcp.streams == old(tcp.streams) - {s}
    ensures Whole(s) == Off(Reasoned(Stopped(Moved(old(Whole(s)), ESTABLISHED)), ACTIVE_CLOSE))
  {
    hide Manager.Queues, Manager.Timers, Whole, Moved, Reasoned, Off, Stopped, Without;
    Greet(tcp, s);
    GiveReason(s, ACTIVE_CLOSE);
    Drop(tcp, s);
  }

  /** user_tcp_handle_syn_rcvd. The result is false if the source ends the program because of an
      unexpected acknowledgement number. */
  method HandleSynRcvd(tcp: Manager, s: Stream, p: Packet, acceptFull: bool) returns (alive: bool)
    requires tcp.Valid() && s in tcp.streams && s.state == SYN_RCVD
    modifies tcp`timeoutList, tcp`timeoutListCnt, s`onTimeoutList, tcp`rtoList, tcp`rtoListCnt, s`onRtoIdx, s`state
    modifies tcp`controlList, tcp`controlListCnt, s`onControlList, s`sndUna, s`sndNxt, s`nrtx, s`rcvNxt, s`closeReason
    ensures tcp.Valid() && Whole(s) == SynRcvdTo(old(Whole(s)), p, acceptFull)
    ensures Plain(old(Look(s)), Look(s))
    ensures s.state == ESTABLISHED ==> s.onControlList == old(s.onControlList)
    ensures alive <==> !p.ack || p.ackSeq == Wrap(s.iss + 1)
    ensures s.state == if !alive || !p.ack then SYN_RCVD else if acceptFull then CLOSED else ESTABLISHED
    ensures alive && p.ack ==>
      s.onTimeoutList && s.onRtoIdx < 0 && s.sndNxt == p.ackSeq && s.rcvNxt == Wrap(s.irs + 1) && s.nrtx == 0
    ensures !p.ack || s.state == CLOSED ==> s.onControlList
    ensures !p.ack ==> s.sndNxt == s.iss
    ensures s.sndUna == if alive && p.ack then Wrap(old(s.sndUna) + 1) else old(s.sndUna)
    ensures s.state == CLOSED ==> s.closeReason == NOT_ACCEPTED
  {
    hide Manager.Queues, Manager.Timers, Wrap, Whole, Look, ConnectedBy, Placed, Queued, Plain;
    ghost var c := Whole(s);
    ShowsAll(s);
    SynRcvdMeans(c, p, acceptFull);
    if p.ack {
      if p.ackSeq != Wrap(s.iss + 1) {
        return false;
      }
      Connect(tcp, s, p.ackSeq, acceptFull);
    } else {
      Place(s, s.iss, s.sndUna);
      WantControl(tcp, s);
    }
    ShowsAll(s);
    alive := true;
  }

  lemma SynRcvdMeans(c: Conn, p: Packet, full: bool)
    requires c.view.state == SYN_RCVD
    ensures var e := SynRcvdTo(c, p, full); var met := p.ack && p.ackSeq == Wrap(c.iss + 1);
      && Plain(c.view, e.view) && e.iss == c.iss && e.irs == c.irs
      && e.view.state == (if !met then SYN_RCVD else if full then CLOSED else ESTABLISHED)
      && (e.view.state == ESTABLISHED ==> e.links == c.links)
      && (met ==> e.clock.watched && !e.clock.timed && e.clock.nrtx == 0)
      && (met ==> e.num.nxt == p.ackSeq && e.view.rcvNxt == Wrap(c.irs + 1))
      && (!p.ack || e.view.state == CLOSED ==> e.links.controlling) && (!p.ack ==> e.num.nxt == c.iss)
      && e.num.una == (if met then Wrap(c.num.una + 1) else c.num.una)
      && (e.view.state == CLOSED ==> e.ending.reason == NOT_ACCEPTED)
  {
    hide Wrap;
  }

  /** Lines 1022-1073. */
  method Connect(tcp: Manager, s: Stream, ackSeq: u32, acceptFull: bool)
    requires tcp.Valid() && s in tcp.streams && s.state == SYN_RCVD
    modifies tcp`timeoutList, tcp`timeoutListCnt, s`onTimeoutList, tcp`rtoList, tcp`rtoListCnt, s`onRtoIdx, s`state
    modifies tcp`controlList, tcp`controlListCnt, s`onControlList, s`sndUna, s`sndNxt, s`nrtx, s`rcvNxt, s`closeReason
    ensures tcp.Valid() && Whole(s) == ConnectedBy(old(Whole(s)), ackSeq, acceptFull)
  {
    hide Manager.Queues, Manager.Timers, Wrap, Whole, Placed, Awaiting, Watched, Stopped, Moved, Over, Queued;
    ShowsNumbers(s);
    EarlyIsIdle(tcp, s);
    ForgetRetries(s);
    Place(s, ackSeq, Wrap(s.sndUna + 1));
    Await(s, Wrap(s.irs + 1));
    Establish(tcp, s);
    if acceptFull {
      Close(tcp, s, NOT_ACCEPTED);
      WantControl(tcp, s);
    }
  }

  // ---- the data path of a segment, as far as lists and numbers are concerned

  /** user_tcp_process_payload and the acknowledgement that follows. */
  method TakePayload(tcp: Manager, s: Stream, p: Packet, d: DataPath)
    requires tcp.Queues() && s in tcp.streams
    modifies tcp`ackList, tcp`ackListCnt, s`onAckList, s`ackCnt, s`isWack, s`rcvNxt, s`hasRecvbuf, s`recvEdge
    ensures tcp.Queues() && s.rcvNxt == Awaited(p, old(s.rcvNxt), d) && Whole(s) == PaidIn(old(Whole(s)), p, d)
    ensures p.len > 0 ==> s.onAckList && s.ackCnt == if !d.moved then (old(s.ackCnt) + 1) % 64
      else if old(s.ackCnt) == 0 then 1 else old(s.ackCnt)
  {
    hide Manager.Queues, Whole, Awaiting, Owing;
    if p.len > 0 {
      Await(s, d.rcvNxt);
      StoreIn(s, d);
      EnqueueAck(tcp, s, if d.moved then AGGREGATE else NOW);
    }
  }

  method StoreIn(s: Stream, d: DataPath)
    modifies s`hasRecvbuf, s`recvEdge
    ensures Whole(s) == old(Whole(s)).(inbox := Inbox(d.hasRecvbuf, d.edge))
  {
    hide Look, NumbersOf, LinksOf, ClockOf, EndingOf, OwnerOf;
    s.hasRecvbuf, s.recvEdge := d.hasRecvbuf, d.edge;
  }

  /** user_tcp_process_ack: the stream waits to repeat data, stops waiting if everything it has
      sent is acknowledged, and its timer is set anew if bytes were released. */
  method TakeAck(tcp: Manager, s: Stream, d: DataPath, curTs: u32)
    requires tcp.Valid() && s in tcp.streams && s.hasSndbuf && !s.onTimewaitList
    modifies tcp`sendList, tcp`sendListCnt, s`onSendList, s`sndNxt, s`sndUna
    modifies tcp`rtoList, tcp`rtoListCnt, tcp`rtoNowIdx, tcp`rtoNowTs, s`onRtoIdx, s`nrtx, s`tsRto
    ensures old(tcp.rtoNowIdx) == 0 ==> tcp.rtoNowIdx == 0
    ensures tcp.Valid() && s.sndNxt == d.sndNxt && s.sndUna == d.sndUna && Whole(s) == AckTaken(old(Whole(s)), d)
    ensures s.onSendList == if d.drained then false else d.resend || old(s.onSendList)
    ensures d.released ==> (s.onRtoIdx >= 0 <==> SeqGt(d.sndNxt, d.sndUna))
  {
    hide Manager.Queues, Manager.Timers, SeqGt, Whole, Placed, Rewinding;
    ShowsOwner(s);
    Place(s, d.sndNxt, d.sndUna);
    QueueData(tcp, s, d);
    if d.released {
      UpdateRetransmissionTimer(tcp, s, curTs);
    }
  }

  method QueueData(tcp: Manager, s: Stream, d: DataPath)
    requires tcp.Queues() && s in tcp.streams && s.hasSndbuf
    modifies tcp`sendList, tcp`sendListCnt, s`onSendList
    ensures tcp.Queues() && s.onSendList == (!d.drained && (d.resend || old(s.onSendList)))
    ensures var c := old(Whole(s));
      Whole(s) == c.(links := c.links.(sending := !d.drained && (d.resend || c.links.sending)))
  {
    hide Manager.Queues, Whole;
    ShowsLinks(s);
    if d.resend {
      WantSend(tcp, s);
    }
    if d.drained {
      LeaveSend(tcp, s);
    }
    ShowsLinks(s);
  }

  method LeaveSend(tcp: Manager, s: Stream)
    requires tcp.Queues() && s in tcp.streams
    modifies tcp`sendList, tcp`sendListCnt, s`onSendList
    ensures tcp.Queues() && !s.onSendList
    ensures Whole(s) == old(Whole(s)).(links := old(Whole(s)).links.(sending := false))
  {
    hide Manager.ControlOk, Manager.SendOk, Manager.AckOk, Look, NumbersOf, ClockOf, InboxOf, EndingOf, OwnerOf;
    tcp.RemoveFromSendList(s);
  }

  /** user_tcp_handle_established: the peer's FIN counts only at exactly `rcv_nxt`. */
  method HandleEstablished(tcp: Manager, s: Stream, p: Packet, d: DataPath, curTs: u32)
    requires tcp.Valid() && s in tcp.streams && s.state == ESTABLISHED
    modifies tcp`sendList, tcp`sendListCnt, s`onSendList, s`sndNxt, s`sndUna, s`state
    modifies tcp`rtoList, tcp`rtoListCnt, tcp`rtoNowIdx, tcp`rtoNowTs, s`onRtoIdx, s`nrtx, s`tsRto
    modifies tcp`ackList, tcp`ackListCnt, s`onAckList, s`ackCnt, s`isWack, s`rcvNxt, s`hasRecvbuf, s`recvEdge
    modifies s`peerFin, tcp`controlList, tcp`controlListCnt, s`onControlList
    ensures old(tcp.rtoNowIdx) == 0 ==> tcp.rtoNowIdx == 0
    ensures tcp.Valid() && Whole(s) == EstablishedTo(old(Whole(s)), p, d)
    ensures OnSegment(old(Look(s)), Look(s), p, d)
    ensures s.state == if !p.syn && p.fin && p.End() == Awaited(p, old(s.rcvNxt), d) then CLOSE_WAIT else ESTABLISHED
    ensures s.rcvNxt == NextNumber(ESTABLISHED, p, old(s.rcvNxt), d)
    ensures s.peerFin == (old(s.peerFin) || FinInOrder(ESTABLISHED, p, old(s.rcvNxt), d))
    ensures s.state == CLOSE_WAIT ==> s.rcvNxt == Wrap(p.End() + 1) && s.peerFin
    ensures s.onControlList == (old(s.onControlList) || p.syn || s.state == CLOSE_WAIT)
    ensures !p.syn && p.fin && s.state == ESTABLISHED ==> s.onAckList
    // a SYN in this state takes over the acknowledgement number unchecked
    ensures s.sndNxt == if p.syn then p.ackSeq else if p.ack && s.hasSndbuf then d.sndNxt else old(s.sndNxt)
    ensures s.sndUna == if !p.syn && p.ack && s.hasSndbuf then d.sndUna else old(s.sndUna)
  {
    hide Manager.Queues, Manager.Timers, Wrap, Whole, Look, OnSegment, EstablishedTo, NextNumber, FinInOrder;
    ghost var c := Whole(s);
    ShowsAll(s);
    EstablishedMeans(c, p, d);
    ServeEstablished(tcp, s, p, d, curTs);
    ShowsAll(s);
  }

  lemma EstablishedMeans(c: Conn, p: Packet, d: DataPath)
    requires c.view.state == ESTABLISHED
    ensures var e := EstablishedTo(c, p, d); var rcvNxt := c.view.rcvNxt;
      && OnSegment(c.view, e.view, p, d)
      && e.view.state == (if !p.syn && p.fin && p.End() == Awaited(p, rcvNxt, d) then CLOSE_WAIT else ESTABLISHED)
      && e.view.rcvNxt == NextNumber(ESTABLISHED, p, rcvNxt, d)
      && e.view.peerFin == (c.view.peerFin || FinInOrder(ESTABLISHED, p, rcvNxt, d))
      && (e.view.state == CLOSE_WAIT ==> e.view.rcvNxt == Wrap(p.End() + 1) && e.view.peerFin)
      && e.links.controlling == (c.links.controlling || p.syn || e.view.state == CLOSE_WAIT)
      && (!p.syn && p.fin && e.view.state == ESTABLISHED ==> e.links.acking)
      && e.num == Numbers(
        if p.syn then p.ackSeq else if p.ack && c.owner.sndbuf then d.sndNxt else c.num.nxt,
        if !p.syn && p.ack && c.owner.sndbuf then d.sndUna else c.num.una)
  {
    hide Wrap, AckTaken, PaidIn, FinAt;
    AckTakenKeeps(PaidIn(c, p, d), d);
    PaidKeeps(c, p, d);
    FinAtMeans(PaidIn(c, p, d), p.End());
    FinAtMeans(AckTaken(PaidIn(c, p, d), d), p.End());
  }

  /** An acknowledgement changes no state and asks for no control packet. */
  lemma AckTakenKeeps(c: Conn, d: DataPath)
    ensures var e := AckTaken(c, d);
      && e.view == c.view && e.links.controlling == c.links.controlling && e.links.acking == c.links.acking
      && e.num == (if c.owner.sndbuf then Numbers(d.sndNxt, d.sndUna) else c.num) && e.owner == c.owner
      && e.ending == c.ending && e.iss == c.iss && e.irs == c.irs
  {}

  /** A payload moves on the number awaited. */
  lemma PaidKeeps(c: Conn, p: Packet, d: DataPath)
    ensures var e := PaidIn(c, p, d);
      && e.view == c.view.(rcvNxt := Awaited(p, c.view.rcvNxt, d)) && e.links.controlling == c.links.controlling
      && e.num == c.num && e.owner == c.owner && e.ending == c.ending && e.clock == c.clock
  {}

  lemma FinAtMeans(c: Conn, end: u32)
    ensures var e := FinAt(c, end);
      && e.num == c.num
      && (if end == c.view.rcvNxt
          then e.view == c.view.(state := CLOSE_WAIT, rcvNxt := Wrap(end + 1), peerFin := true) && e.links.controlling
          else e.view == c.view && e.links.acking && e.links.controlling == c.links.controlling)
  {}

  /** ... with the stream as a value. */
  method ServeEstablished(tcp: Manager, s: Stream, p: Packet, d: DataPath, curTs: u32)
    requires tcp.Valid() && s in tcp.streams && s.state == ESTABLISHED
    modifies tcp`sendList, tcp`sendListCnt, s`onSendList, s`sndNxt, s`sndUna, s`state
    modifies tcp`rtoList, tcp`rtoListCnt, tcp`rtoNowIdx, tcp`rtoNowTs, s`onRtoIdx, s`nrtx, s`tsRto
    modifies tcp`ackList, tcp`ackListCnt, s`onAckList, s`ackCnt, s`isWack, s`rcvNxt, s`hasRecvbuf, s`recvEdge
    modifies s`peerFin, tcp`controlList, tcp`controlListCnt, s`onControlList
    ensures old(tcp.rtoNowIdx) == 0 ==> tcp.rtoNowIdx == 0
    ensures tcp.Valid() && Whole(s) == EstablishedTo(old(Whole(s)), p, d)
  {
    hide Manager.Queues, Manager.Timers, Wrap, Whole, Placed, Queued, AckTaken, PaidIn, FinAt;
    ShowsNumbers(s);
    ShowsOwner(s);
    EarlyIsIdle(tcp, s);
    NoBuffer(PaidIn(Whole(s), p, d), d);
    PaidKeeps(Whole(s), p, d);
    if p.syn {
      Place(s, p.ackSeq, s.sndUna);
      WantControl(tcp, s);
      return;
    }
    TakePayload(tcp, s, p, d);
    if p.ack && s.hasSndbuf {
      TakeAck(tcp, s, d, curTs);
    }
    if p.fin {
      FinInEstablished(tcp, s, p.End());
    }
  }

  lemma NoBuffer(c: Conn, d: DataPath)
    ensures !c.owner.sndbuf ==> AckTaken(c, d) == c
  {}

  /** Lines 1122-1148. */
  method FinInEstablished(tcp: Manager, s: Stream, end: u32)
    requires tcp.Valid() && s in tcp.streams && s.state == ESTABLISHED
    modifies s`state, s`rcvNxt, s`peerFin, tcp`controlList, tcp`controlListCnt, s`onControlList
    modifies tcp`ackList, tcp`ackListCnt, s`onAckList, s`ackCnt, s`isWack
    ensures tcp.Valid() && Whole(s) == FinAt(old(Whole(s)), end)
  {
    hide Manager.Queues, Manager.Timers, Wrap, Whole, FinTaken, Moved, Queued, Owing;
    Shows(s);
    EarlyIsIdle(tcp, s);
    if end == s.rcvNxt {
      TakeFin(s);
      Enter(tcp, s, CLOSE_WAIT);
      WantControl(tcp, s);
    } else {
      EnqueueAck(tcp, s, NOW);
    }
  }

  /** user_tcp_handle_close_wait. */
  method HandleCloseWait(tcp: Manager, s: Stream, p: Packet, d: DataPath, curTs: u32)
    requires tcp.Valid() && s in tcp.streams && s.state == CLOSE_WAIT
    modifies tcp`sendList, tcp`sendListCnt, s`onSendList, s`sndNxt, s`sndUna
    modifies tcp`rtoList, tcp`rtoListCnt, tcp`rtoNowIdx, tcp`rtoNowTs, s`onRtoIdx, s`nrtx, s`tsRto, tcp`controlList
    modifies tcp`controlListCnt, s`onControlList
    ensures old(tcp.rtoNowIdx) == 0 ==> tcp.rtoNowIdx == 0
    ensures tcp.Valid() && Look(s) == old(Look(s)) && Whole(s) == CloseWaitTo(old(Whole(s)), p, d)
    ensures s.onControlList == (old(s.onControlList) || SeqLt(p.seqNum, s.rcvNxt))
    ensures SeqLt(p.seqNum, s.rcvNxt) ==> s.sndNxt == old(s.sndNxt) && s.sndUna == old(s.sndUna)
    ensures !SeqLt(p.seqNum, s.rcvNxt) && s.hasSndbuf ==> s.sndNxt == d.sndNxt && s.sndUna == d.sndUna
  {
    hide Manager.Queues, Manager.Timers, SeqLt, Whole, Queued, AckTaken;
    Shows(s);
    ShowsOwner(s);
    NoBuffer(Whole(s), d);
    EarlyIsIdle(tcp, s);
    if SeqLt(p.seqNum, s.rcvNxt) {
      WantControl(tcp, s);
      return;
    }
    if s.hasSndbuf {
      TakeAck(tcp, s, d, curTs);
    }
  }

  /** Lines 1201-1209. */
  method CloseAfterFin(tcp: Manager, s: Stream, curTs: u32)
    requires tcp.Valid() && s in tcp.streams && s.state == LAST_ACK
    modifies tcp, s
    ensures old(tcp.rtoNowIdx) == 0 ==> tcp.rtoNowIdx == 0
    ensures tcp.log == old(tcp.log) && tcp.room == old(tcp.room) && s.peerWnd == old(s.peerWnd)
    ensures tcp.Valid() && tcp.streams == old(tcp.streams) - {s} && Whole(s) == Finished(old(Whole(s)))
  {
    hide Manager.Queues, Manager.Timers, Wrap, Whole, FinAcknowledged, Placed, Rewinding, Over, Off;
    EarlyIsIdle(tcp, s);
    FinNumbers(s);
    Acknowledge(s);
    Place(s, s.sndNxt, Wrap(s.sndUna + 1));
    UpdateRetransmissionTimer(tcp, s, curTs);
    End(tcp, s, PASSIVE_CLOSE);
  }

  lemma FinNumbers(s: Stream)
    ensures FinAcknowledged(Whole(s)).num == Whole(s).num == Numbers(s.sndNxt, s.sndUna)
  {}

  /** user_tcp_handle_last_ack: the connection is over, and the stream destroyed, exactly when the
      FIN is acknowledged. */
  method HandleLastAck(tcp: Manager, s: Stream, p: Packet, d: DataPath, curTs: u32)
    requires tcp.Valid() && s in tcp.streams && s.state == LAST_ACK
    modifies tcp, s
    ensures old(tcp.rtoNowIdx) == 0 ==> tcp.rtoNowIdx == 0
    ensures tcp.log == old(tcp.log) && tcp.room == old(tcp.room) && s.peerWnd == old(s.peerWnd)
    ensures tcp.Valid() && Whole(s) == LastAckTo(old(Whole(s)), p, d)
    ensures OnSegment(old(Look(s)), Look(s), p, d)
    ensures s.state == CLOSED <==> !SeqLt(p.seqNum, old(s.rcvNxt)) && AcksFin(p, old(s.isFinSent), old(s.fss))
    ensures s.state != CLOSED ==> s.state == LAST_ACK
    ensures s.state != CLOSED && !SeqLt(p.seqNum, old(s.rcvNxt)) && (p.ack ==> s.isFinSent) ==> s.onControlList
    ensures tcp.streams == if s.state == CLOSED then old(tcp.streams) - {s} else old(tcp.streams)
  {
    hide Manager.Valid, SeqLt, Wrap, Whole, Look, OnSegment, LastAckTo, AcksFin;
    ghost var c := Whole(s);
    ShowsAll(s);
    LastAckMeans(c, p, d);
    ServeLastAck(tcp, s, p, d, curTs);
    ShowsAll(s);
  }

  lemma LastAckMeans(c: Conn, p: Packet, d: DataPath)
    requires c.view.state == LAST_ACK
    ensures var e := LastAckTo(c, p, d); var late := SeqLt(p.seqNum, c.view.rcvNxt);
      && OnSegment(c.view, e.view, p, d)
      && e.view.state == (if !late && AcksFin(p, c.view.finSent, c.view.fss) then CLOSED else LAST_ACK)
      && e.view == c.view.(state := e.view.state, finAcked := c.view.finAcked || e.view.state == CLOSED)
      && (e.view.state != CLOSED && !late && (p.ack ==> c.view.finSent) ==> e.links.controlling)
  {
    hide Wrap, SeqGt, SeqLt;
  }

  /** ... with the stream as a value. */
  method ServeLastAck(tcp: Manager, s: Stream, p: Packet, d: DataPath, curTs: u32)
    requires tcp.Valid() && s in tcp.streams && s.state == LAST_ACK
    modifies tcp, s
    ensures old(tcp.rtoNowIdx) == 0 ==> tcp.rtoNowIdx == 0
    ensures tcp.log == old(tcp.log) && tcp.room == old(tcp.room) && s.peerWnd == old(s.peerWnd)
    ensures tcp.Valid() && Whole(s) == LastAckTo(old(Whole(s)), p, d)
    ensures tcp.streams ==
      if !SeqLt(p.seqNum, old(s.rcvNxt)) && AcksFin(p, old(s.isFinSent), old(s.fss)) then old(tcp.streams) - {s}
      else old(tcp.streams)
  {
    hide Manager.Queues, Manager.Timers, SeqLt, Wrap, Whole, AckTaken, Queued, Finished;
    Shows(s);
    ShowsOwner(s);
    NoBuffer(Whole(s), d);
    EarlyIsIdle(tcp, s);
    if SeqLt(p.seqNum, s.rcvNxt) {
      return;
    }
    if p.ack {
      if s.hasSndbuf {
        TakeAck(tcp, s, d, curTs);
      }
      if !s.isFinSent {
        return;
      }
      if p.ackSeq == Wrap(s.fss + 1) {
        CloseAfterFin(tcp, s, curTs);
      } else {
        WantControl(tcp, s);
      }
    } else {
      WantControl(tcp, s);
    }
  }

  /** The connection is over, and so is the stream. */
  method End(tcp: Manager, s: Stream, reason: CloseReason)
    requires tcp.Valid() && s in tcp.streams
    modifies tcp`controlList, tcp`controlListCnt, tcp`sendList, tcp`sendListCnt, tcp`ackList, tcp`ackListCnt
    modifies tcp`rtoList, tcp`rtoListCnt, tcp`timewaitList, tcp`timewaitListCnt, tcp`timeoutList
    modifies tcp`timeoutListCnt, tcp`streams, s`state, s`closeReason
    modifies s`onControlList, s`onSendList, s`onAckList, s`onRtoIdx, s`onTimewaitList, s`onTimeoutList
    ensures tcp.Valid() && tcp.streams == old(tcp.streams) - {s} && Whole(s) == Off(Over(old(Whole(s)), reason))
  {
    hide Manager.Valid, Whole, Over, Off;
    CloseOrDrop(tcp, s, reason, false);
  }

  /** user_tcp_handle_fin_wait_1. The four outcomes follow section 3.3.2 of RFC 9293, except that a
      segment which both acknowledges our FIN and carries the peer's, in order, leads to CLOSED:
      line 1296 assigns a timer constant that is 0, where the trace message names TIME_WAIT. */
  method HandleFinWait1(tcp: Manager, s: Stream, p: Packet, d: DataPath, curTs: u32)
    requires tcp.Valid() && s in tcp.streams && s.state == FIN_WAIT_1
    modifies tcp`sendList, tcp`sendListCnt, s`onSendList, s`sndNxt, s`sndUna, s`finAcked, s`state
    modifies tcp`rtoList, tcp`rtoListCnt, tcp`rtoNowIdx, tcp`rtoNowTs, s`onRtoIdx, s`nrtx, s`tsRto
    modifies tcp`ackList, tcp`ackListCnt, s`onAckList, s`ackCnt, s`isWack, s`rcvNxt, s`hasRecvbuf, s`recvEdge
    modifies s`peerFin, tcp`timewaitList, tcp`timewaitListCnt, s`onTimewaitList, s`tsTwExpire
    modifies tcp`controlList, tcp`controlListCnt, s`onControlList
    ensures old(tcp.rtoNowIdx) == 0 ==> tcp.rtoNowIdx == 0
    ensures tcp.Valid() && Whole(s) == FinWait1To(old(Whole(s)), p, d, curTs)
    ensures OnSegment(old(Look(s)), Look(s), p, d)
    ensures s.state == AfterFinWait1(old(s.state), p, old(s.isFinSent), s.fss, old(s.rcvNxt), d.rcvNxt)
    ensures s.rcvNxt == NextNumber(FIN_WAIT_1, p, old(s.rcvNxt), d)
    ensures s.peerFin == (old(s.peerFin) || FinInOrder(FIN_WAIT_1, p, old(s.rcvNxt), d))
    ensures s.state == CLOSED ==> s.onTimewaitList && s.onRtoIdx < 0 && s.finAcked && s.peerFin
    ensures s.state == FIN_WAIT_2 ==> s.onRtoIdx < 0 && s.sndUna == p.ackSeq
    ensures s.onControlList == (old(s.onControlList) || SeqLt(p.seqNum, old(s.rcvNxt)) ||
      FinInOrder(FIN_WAIT_1, p, old(s.rcvNxt), d))
    ensures s.state == CLOSING || s.state == CLOSED ==> s.rcvNxt == Wrap(p.End() + 1)
    // an acknowledgement that is not late moves both numbers, that of the FIN at least to behind it
    ensures var meets := p.ack && !SeqLt(p.seqNum, old(s.rcvNxt));
      var nxt, una := if meets && s.hasSndbuf then d.sndNxt else old(s.sndNxt),
        if meets && s.hasSndbuf then d.sndUna else old(s.sndUna);
      if meets && AcksFin(p, s.isFinSent, s.fss)
        then s.sndUna == p.ackSeq && s.sndNxt == (if SeqGt(p.ackSeq, nxt) then p.ackSeq else nxt)
        else s.sndUna == una && s.sndNxt == nxt
  {
    hide Manager.Queues, Manager.Timers, SeqLt, SeqGt, Wrap, Whole, Look, OnSegment, AcksFin, FinWait1To;
    hide NextNumber, FinInOrder, AfterFinWait1, FinWait1View;
    ghost var c := Whole(s);
    ShowsAll(s);
    FinWait1Means(c, p, d, curTs);
    FinWait1Values(c, p, d, curTs);
    ServeFinWait1(tcp, s, p, d, curTs);
    ShowsAll(s);
  }

  /** What is to be seen after a segment in FIN_WAIT_1. */
  function FinWait1View(v: View, p: Packet, d: DataPath): View {
    var rcvNxt := Awaited(p, v.rcvNxt, d);
    var acked, finIn := AcksFin(p, v.finSent, v.fss), p.fin && p.End() == rcvNxt;
    if SeqLt(p.seqNum, v.rcvNxt) || !p.ack then v
    else v.(state := if acked then (if finIn then CLOSED else FIN_WAIT_2) else if finIn then CLOSING else FIN_WAIT_1,
      rcvNxt := if finIn then Wrap(p.End() + 1) else rcvNxt, peerFin := v.peerFin || finIn,
      finAcked := v.finAcked || acked)
  }

  lemma FinWait1Values(c: Conn, p: Packet, d: DataPath, ts: u32)
    requires c.view.state == FIN_WAIT_1
    ensures var e := FinWait1To(c, p, d, ts); var rcvNxt := c.view.rcvNxt;
      && e.view == FinWait1View(c.view, p, d) && e.owner == c.owner && e.num == FinWait1Numbers(c, p, d)
      && (e.view.state == CLOSED ==> e.clock.lingers && !e.clock.timed)
      && (e.view.state == FIN_WAIT_2 ==> !e.clock.timed && e.num.una == p.ackSeq)
      && e.links.controlling ==
        (c.links.controlling || SeqLt(p.seqNum, rcvNxt) || FinInOrder(FIN_WAIT_1, p, rcvNxt, d))
  {
    hide Wrap, SeqGt, SeqLt, AckTaken, PaidIn, HalfClosed, BothFinished, AcksFin;
    var e := AckTaken(c, d);
    AckTakenKeeps(c, d);
    HalfClosedMeans(e, p.ackSeq);
    PaidKeeps(e, p, d);
    PaidKeeps(HalfClosed(e, p.ackSeq), p, d);
    BothFinishedMeans(PaidIn(e, p, d), ts);
    BothFinishedMeans(PaidIn(HalfClosed(e, p.ackSeq), p, d), ts);
  }

  lemma FinWait1Means(c: Conn, p: Packet, d: DataPath, ts: u32)
    requires c.view.state == FIN_WAIT_1
    ensures var e := FinWait1To(c, p, d, ts); var rcvNxt := c.view.rcvNxt;
      && OnSegment(c.view, e.view, p, d)
      && e.view.state == AfterFinWait1(FIN_WAIT_1, p, c.view.finSent, c.view.fss, rcvNxt, d.rcvNxt)
      && e.view.rcvNxt == NextNumber(FIN_WAIT_1, p, rcvNxt, d)
      && e.view.peerFin == (c.view.peerFin || FinInOrder(FIN_WAIT_1, p, rcvNxt, d))
      && (e.view.state == CLOSED ==> e.view.finAcked && e.view.peerFin)
      && (e.view.state == CLOSING || e.view.state == CLOSED ==> e.view.rcvNxt == Wrap(p.End() + 1))
  {
    hide Wrap, SeqLt, FinWait1To;
    FinWait1Values(c, p, d, ts);
  }

  /** Where the numbers are after a segment in FIN_WAIT_1. */
  function FinWait1Numbers(c: Conn, p: Packet, d: DataPath): Numbers {
    var meets := p.ack && !SeqLt(p.seqNum, c.view.rcvNxt);
    var n := if meets && c.owner.sndbuf then Numbers(d.sndNxt, d.sndUna) else c.num;
    if meets && AcksFin(p, c.view.finSent, c.view.fss)
      then Numbers(if SeqGt(p.ackSeq, n.nxt) then p.ackSeq else n.nxt, p.ackSeq) else n
  }

  lemma HalfClosedMeans(c: Conn, ackSeq: u32)
    ensures var e := HalfClosed(c, ackSeq);
      && e.view == c.view.(state := FIN_WAIT_2, finAcked := true) && e.links == c.links && !e.clock.timed
      && e.num == Numbers(if SeqGt(ackSeq, c.num.nxt) then ackSeq else c.num.nxt, ackSeq) && e.owner == c.owner
  {
    hide SeqGt;
  }

  lemma BothFinishedMeans(c: Conn, ts: u32)
    ensures var e := BothFinished(c, ts); var to := if c.view.state == FIN_WAIT_1 then CLOSING else CLOSED;
      && e.view == c.view.(state := to, rcvNxt := Wrap(c.view.rcvNxt + 1), peerFin := true) && e.links.controlling
      && e.num == c.num && e.owner == c.owner && (to == CLOSED ==> e.clock.lingers && !e.clock.timed)
  {}

  /** ... with the stream as a value. */
  method ServeFinWait1(tcp: Manager, s: Stream, p: Packet, d: DataPath, curTs: u32)
    requires tcp.Valid() && s in tcp.streams && s.state == FIN_WAIT_1
    modifies tcp`sendList, tcp`sendListCnt, s`onSendList, s`sndNxt, s`sndUna, s`finAcked, s`state
    modifies tcp`rtoList, tcp`rtoListCnt, tcp`rtoNowIdx, tcp`rtoNowTs, s`onRtoIdx, s`nrtx, s`tsRto
    modifies tcp`ackList, tcp`ackListCnt, s`onAckList, s`ackCnt, s`isWack, s`rcvNxt, s`hasRecvbuf, s`recvEdge
    modifies s`peerFin, tcp`timewaitList, tcp`timewaitListCnt, s`onTimewaitList, s`tsTwExpire
    modifies tcp`controlList, tcp`controlListCnt, s`onControlList
    ensures old(tcp.rtoNowIdx) == 0 ==> tcp.rtoNowIdx == 0
    ensures tcp.Valid() && Whole(s) == FinWait1To(old(Whole(s)), p, d, curTs)
  {
    hide Manager.Queues, Manager.Timers, SeqLt, Wrap, Whole, Queued, AckTaken, HalfClosed, PaidIn, BothFinished;
    hide AcksFin;
    Shows(s);
    if SeqLt(p.seqNum, s.rcvNxt) {
      WantControl(tcp, s);
      return;
    }
    if !p.ack {
      return;
    }
    AckInFinWait1(tcp, s, p, d, curTs);
    TakePayload(tcp, s, p, d);
    if p.fin {
      Shows(s);
      if p.End() == s.rcvNxt {
        PeerFinished(tcp, s, curTs);
      }
    }
  }

  /** Lines 1241-1261. */
  method AckInFinWait1(tcp: Manager, s: Stream, p: Packet, d: DataPath, curTs: u32)
    requires tcp.Valid() && s in tcp.streams && s.state == FIN_WAIT_1 && p.ack
    modifies tcp`sendList, tcp`sendListCnt, s`onSendList, s`sndNxt, s`sndUna, s`finAcked, s`state
    modifies tcp`rtoList, tcp`rtoListCnt, tcp`rtoNowIdx, tcp`rtoNowTs, s`onRtoIdx, s`nrtx, s`tsRto
    ensures old(tcp.rtoNowIdx) == 0 ==> tcp.rtoNowIdx == 0
    ensures tcp.Valid() && (s.state == FIN_WAIT_1 || s.state == FIN_WAIT_2)
    ensures var c := old(Whole(s)); var e := AckTaken(c, d);
      Whole(s) == if AcksFin(p, c.view.finSent, c.view.fss) then HalfClosed(e, p.ackSeq) else e
  {
    hide Manager.Queues, Manager.Timers, SeqGt, Wrap, Whole, HalfClosed, AckTaken;
    Shows(s);
    ShowsOwner(s);
    NoBuffer(Whole(s), d);
    EarlyIsIdle(tcp, s);
    if s.hasSndbuf {
      TakeAck(tcp, s, d, curTs);
    }
    if s.isFinSent && p.ackSeq == Wrap(s.fss + 1) {
      FinAcked(tcp, s, p.ackSeq);
    }
  }

  /** The next state of FIN_WAIT_1 as the code computes it. */
  function AfterFinWait1(s: State, p: Packet, isFinSent: bool, fss: u32, rcvNxt: u32, newRcvNxt: u32): State {
    var finIn := p.fin && p.End() == if p.len > 0 then newRcvNxt else rcvNxt;
    if SeqLt(p.seqNum, rcvNxt) || !p.ack then s
    else if AcksFin(p, isFinSent, fss) then (if finIn then CLOSED else FIN_WAIT_2)
    else if finIn then CLOSING else FIN_WAIT_1
  }

  /** The same by the standard: what the acknowledgement and the FIN lead to one after the other. */
  function Standard(s: State, finAcked: bool, finIn: bool): State {
    var t := if s == FIN_WAIT_1 && finAcked then FIN_WAIT_2 else if s == CLOSING && finAcked then TIME_WAIT else s;
    if !finIn then t else if t == FIN_WAIT_1 then CLOSING else if t == FIN_WAIT_2 then TIME_WAIT else t
  }

  /** The code departs from the standard exactly for an acceptable segment that both acknowledges
      the FIN and carries the peer's FIN at `rcv_nxt`. */
  lemma FinWait1DepartsIff(p: Packet, isFinSent: bool, fss: u32, rcvNxt: u32, newRcvNxt: u32)
    requires p.ack && !SeqLt(p.seqNum, rcvNxt)
    ensures var finIn := p.fin && p.End() == if p.len > 0 then newRcvNxt else rcvNxt;
      AfterFinWait1(FIN_WAIT_1, p, isFinSent, fss, rcvNxt, newRcvNxt) != Standard(FIN_WAIT_1,
        AcksFin(p, isFinSent, fss), finIn)
      <==> AcksFin(p, isFinSent, fss) && finIn
  {}

  /** A segment that shows it: FIN and acknowledgement of our FIN, both in order. */
  lemma FinAndAckSkipTimeWait()
    ensures AfterFinWait1(FIN_WAIT_1, Packet(500, 101, 0, false, true, true, false, 0), true, 100, 500, 500) == CLOSED
    ensures Standard(FIN_WAIT_1, true, true) == TIME_WAIT
  {}

  /** Lines 1248-1257. */
  method FinAcked(tcp: Manager, s: Stream, ackSeq: u32)
    requires tcp.Valid() && s in tcp.streams && s.state == FIN_WAIT_1
    modifies s`sndUna, s`sndNxt, s`nrtx, s`finAcked, s`state, tcp`rtoList, tcp`rtoListCnt, s`onRtoIdx
    ensures tcp.Valid() && s.state == FIN_WAIT_2 && Whole(s) == HalfClosed(old(Whole(s)), ackSeq)
  {
    hide Manager.Queues, Manager.Timers, SeqGt, Whole, Placed, FinAcknowledged, Stopped, Moved;
    ShowsNumbers(s);
    EarlyIsIdle(tcp, s);
    ForgetRetries(s);
    Place(s, if SeqGt(ackSeq, s.sndNxt) then ackSeq else s.sndNxt, ackSeq);
    Acknowledge(s);
    StopTimer(tcp, s);
    Enter(tcp, s, FIN_WAIT_2);
  }

  /** Lines 1286-1305. */
  method PeerFinished(tcp: Manager, s: Stream, curTs: u32)
    requires tcp.Valid() && s in tcp.streams && (s.state == FIN_WAIT_1 || s.state == FIN_WAIT_2)
    modifies s`rcvNxt, s`peerFin, s`state, tcp`rtoList, tcp`rtoListCnt, s`onRtoIdx
    modifies tcp`timewaitList, tcp`timewaitListCnt, s`onTimewaitList, s`tsTwExpire, tcp`controlList, tcp`controlListCnt
    modifies s`onControlList
    ensures tcp.Valid() && Whole(s) == BothFinished(old(Whole(s)), curTs)
  {
    hide Manager.Queues, Manager.Timers, Wrap, Whole, FinTaken, Moved, Lingering, Queued;
    Shows(s);
    EarlyIsIdle(tcp, s);
    TakeFin(s);
    if s.state == FIN_WAIT_1 {
      Enter(tcp, s, CLOSING);
    } else {
      Linger(tcp, s, CLOSED, curTs);
    }
    WantControl(tcp, s);
  }

  /** user_tcp_handle_fin_wait_2. */
  method HandleFinWait2(tcp: Manager, s: Stream, p: Packet, d: DataPath, curTs: u32)
    requires tcp.Valid() && s in tcp.streams && s.state == FIN_WAIT_2
    modifies tcp`sendList, tcp`sendListCnt, s`onSendList, s`sndNxt, s`sndUna, s`state
    modifies tcp`rtoList, tcp`rtoListCnt, tcp`rtoNowIdx, tcp`rtoNowTs, s`onRtoIdx, s`nrtx, s`tsRto
    modifies tcp`ackList, tcp`ackListCnt, s`onAckList, s`ackCnt, s`isWack, s`rcvNxt, s`hasRecvbuf, s`recvEdge
    modifies s`peerFin, tcp`timewaitList, tcp`timewaitListCnt, s`onTimewaitList, s`tsTwExpire
    modifies tcp`controlList, tcp`controlListCnt, s`onControlList
    ensures old(tcp.rtoNowIdx) == 0 ==> tcp.rtoNowIdx == 0
    ensures tcp.Valid() && Whole(s) == FinWait2To(old(Whole(s)), p, d, curTs)
    ensures OnSegment(old(Look(s)), Look(s), p, d)
    ensures s.state == if p.ack && p.fin && p.End() == Awaited(p, old(s.rcvNxt), d) then TIME_WAIT else FIN_WAIT_2
    ensures s.rcvNxt == NextNumber(FIN_WAIT_2, p, old(s.rcvNxt), d)
    ensures s.peerFin == (old(s.peerFin) || FinInOrder(FIN_WAIT_2, p, old(s.rcvNxt), d))
    ensures s.state == TIME_WAIT ==>
      s.onTimewaitList && s.onRtoIdx < 0 && s.onControlList && s.rcvNxt == Wrap(p.End() + 1) && s.tsTwExpire == curTs
    ensures s.sndNxt == (if p.ack && s.hasSndbuf then d.sndNxt else old(s.sndNxt)) &&
      s.sndUna == (if p.ack && s.hasSndbuf then d.sndUna else old(s.sndUna))
  {
    hide Manager.Queues, Manager.Timers, Wrap, Whole, Look, OnSegment, FinWait2To, NextNumber, FinInOrder;
    ghost var c := Whole(s);
    ShowsAll(s);
    FinWait2Means(c, p, d, curTs);
    ServeFinWait2(tcp, s, p, d, curTs);
    ShowsAll(s);
  }

  lemma FinWait2Means(c: Conn, p: Packet, d: DataPath, ts: u32)
    requires c.view.state == FIN_WAIT_2
    ensures var e := FinWait2To(c, p, d, ts); var rcvNxt := c.view.rcvNxt;
      && OnSegment(c.view, e.view, p, d)
      && e.view.state == (if p.ack && p.fin && p.End() == Awaited(p, rcvNxt, d) then TIME_WAIT else FIN_WAIT_2)
      && e.view.rcvNxt == NextNumber(FIN_WAIT_2, p, rcvNxt, d)
      && e.view.peerFin == (c.view.peerFin || FinInOrder(FIN_WAIT_2, p, rcvNxt, d))
      && e.view.finAcked == c.view.finAcked
      && (e.view.state == TIME_WAIT ==> e.clock.lingers && !e.clock.timed && e.clock.expire == ts)
      && (e.view.state == TIME_WAIT ==> e.links.controlling && e.view.rcvNxt == Wrap(p.End() + 1))
      && e.num == (if p.ack && c.owner.sndbuf then Numbers(d.sndNxt, d.sndUna) else c.num)
  {
    hide Wrap, AckTaken, PaidIn, FinTaken, Lingering;
    AckTakenKeeps(c, d);
    PaidKeeps(AckTaken(c, d), p, d);
    LastFinMeans(PaidIn(AckTaken(c, d), p, d), ts);
  }

  lemma LastFinMeans(c: Conn, ts: u32)
    ensures var e := Queued(Lingering(FinTaken(c), TIME_WAIT, ts));
      && e.view == c.view.(state := TIME_WAIT, rcvNxt := Wrap(c.view.rcvNxt + 1), peerFin := true)
      && e.links.controlling && e.num == c.num && e.clock.lingers && !e.clock.timed && e.clock.expire == ts
  {}

  /** ... with the stream as a value. */
  method ServeFinWait2(tcp: Manager, s: Stream, p: Packet, d: DataPath, curTs: u32)
    requires tcp.Valid() && s in tcp.streams && s.state == FIN_WAIT_2
    modifies tcp`sendList, tcp`sendListCnt, s`onSendList, s`sndNxt, s`sndUna, s`state
    modifies tcp`rtoList, tcp`rtoListCnt, tcp`rtoNowIdx, tcp`rtoNowTs, s`onRtoIdx, s`nrtx, s`tsRto
    modifies tcp`ackList, tcp`ackListCnt, s`onAckList, s`ackCnt, s`isWack, s`rcvNxt, s`hasRecvbuf, s`recvEdge
    modifies s`peerFin, tcp`timewaitList, tcp`timewaitListCnt, s`onTimewaitList, s`tsTwExpire
    modifies tcp`controlList, tcp`controlListCnt, s`onControlList
    ensures old(tcp.rtoNowIdx) == 0 ==> tcp.rtoNowIdx == 0
    ensures tcp.Valid() && Whole(s) == FinWait2To(old(Whole(s)), p, d, curTs)
  {
    hide Manager.Queues, Manager.Timers, Wrap, Whole, AckTaken, PaidIn, FinTaken, Lingering, Queued;
    ShowsOwner(s);
    NoBuffer(Whole(s), d);
    EarlyIsIdle(tcp, s);
    if !p.ack {
      return;
    }
    if s.hasSndbuf {
      TakeAck(tcp, s, d, curTs);
    }
    TakePayload(tcp, s, p, d);
    if p.fin {
      Shows(s);
      if p.End() == s.rcvNxt {
        PeerFinishedLast(tcp, s, curTs);
      }
    }
  }

  /** Lines 1346-1351. */
  method PeerFinishedLast(tcp: Manager, s: Stream, curTs: u32)
    requires tcp.Valid() && s in tcp.streams && s.state == FIN_WAIT_2
    modifies s`rcvNxt, s`peerFin, s`state, tcp`rtoList, tcp`rtoListCnt, s`onRtoIdx
    modifies tcp`timewaitList, tcp`timewaitListCnt, s`onTimewaitList, s`tsTwExpire, tcp`controlList, tcp`controlListCnt
    modifies s`onControlList
    ensures tcp.Valid() && Whole(s) == Queued(Lingering(FinTaken(old(Whole(s))), TIME_WAIT, curTs))
  {
    hide Manager.Queues, Manager.Timers, Wrap, Whole, FinTaken, Lingering, Queued;
    TakeFin(s);
    Linger(tcp, s, TIME_WAIT, curTs);
    WantControl(tcp, s);
  }

  /** user_tcp_handle_closing. */
  method HandleClosing(tcp: Manager, s: Stream, p: Packet, d: DataPath, curTs: u32)
    requires tcp.Valid() && s in tcp.streams && s.state == CLOSING
    modifies tcp`sendList, tcp`sendListCnt, s`onSendList, s`sndNxt, s`sndUna, s`finAcked, s`state
    modifies tcp`rtoList, tcp`rtoListCnt, tcp`rtoNowIdx, tcp`rtoNowTs, s`onRtoIdx, s`nrtx, s`tsRto
    modifies tcp`timewaitList, tcp`timewaitListCnt, s`onTimewaitList, s`tsTwExpire
    ensures old(tcp.rtoNowIdx) == 0 ==> tcp.rtoNowIdx == 0
    ensures tcp.Valid() && Whole(s) == ClosingTo(old(Whole(s)), p, d, curTs)
    ensures OnSegment(old(Look(s)), Look(s), p, d)
    ensures s.state == if AcksFin(p, s.isFinSent, s.fss) then TIME_WAIT else CLOSING
    ensures s.state == TIME_WAIT ==>
      s.onTimewaitList && s.onRtoIdx < 0 && s.sndNxt == s.sndUna == p.ackSeq && s.tsTwExpire == curTs
  {
    hide Manager.Queues, Manager.Timers, Wrap, Whole, Look, OnSegment, ClosingTo, AcksFin;
    ghost var c := Whole(s);
    ShowsAll(s);
    ClosingMeans(c, p, d, curTs);
    ServeClosing(tcp, s, p, d, curTs);
    ShowsAll(s);
  }

  lemma ClosingMeans(c: Conn, p: Packet, d: DataPath, ts: u32)
    requires c.view.state == CLOSING
    ensures var e := ClosingTo(c, p, d, ts); var done := AcksFin(p, c.view.finSent, c.view.fss);
      && OnSegment(c.view, e.view, p, d)
      && e.view == (if done then c.view.(state := TIME_WAIT, finAcked := true) else c.view)
      && (done ==> e.clock.lingers && !e.clock.timed && e.num.nxt == e.num.una == p.ackSeq && e.clock.expire == ts)
  {
    hide Wrap, SeqGt, AckTaken;
    AckTakenKeeps(c, d);
  }

  /** ... with the stream as a value. */
  method ServeClosing(tcp: Manager, s: Stream, p: Packet, d: DataPath, curTs: u32)
    requires tcp.Valid() && s in tcp.streams && s.state == CLOSING
    modifies tcp`sendList, tcp`sendListCnt, s`onSendList, s`sndNxt, s`sndUna, s`finAcked, s`state
    modifies tcp`rtoList, tcp`rtoListCnt, tcp`rtoNowIdx, tcp`rtoNowTs, s`onRtoIdx, s`nrtx, s`tsRto
    modifies tcp`timewaitList, tcp`timewaitListCnt, s`onTimewaitList, s`tsTwExpire
    ensures old(tcp.rtoNowIdx) == 0 ==> tcp.rtoNowIdx == 0
    ensures tcp.Valid() && Whole(s) == ClosingTo(old(Whole(s)), p, d, curTs)
  {
    hide Manager.Queues, Manager.Timers, Wrap, Whole, AckTaken, Placed, FinAcknowledged, Rewinding, Lingering;
    Shows(s);
    ShowsOwner(s);
    NoBuffer(Whole(s), d);
    EarlyIsIdle(tcp, s);
    if !p.ack {
      return;
    }
    if s.hasSndbuf {
      TakeAck(tcp, s, d, curTs);
    }
    if !s.isFinSent {
      return;
    }
    if p.ackSeq != Wrap(s.fss + 1) {
      return;
    }
    EnterTimeWait(tcp, s, p.ackSeq, curTs);
  }

  /** Lines 1376-1384. */
  method EnterTimeWait(tcp: Manager, s: Stream, ackSeq: u32, curTs: u32)
    requires tcp.Valid() && s in tcp.streams && s.state == CLOSING
    modifies s`sndUna, s`sndNxt, s`finAcked, s`state, tcp`timewaitList, tcp`timewaitListCnt, s`onTimewaitList
    modifies s`tsTwExpire
    modifies tcp`rtoList, tcp`rtoListCnt, tcp`rtoNowIdx, tcp`rtoNowTs, s`onRtoIdx, s`nrtx, s`tsRto
    ensures old(tcp.rtoNowIdx) == 0 ==> tcp.rtoNowIdx == 0
    ensures tcp.Valid()
    ensures Whole(s) ==
      Lingering(Rewinding(FinAcknowledged(Placed(old(Whole(s)), ackSeq, ackSeq))), TIME_WAIT, curTs)
  {
    hide Manager.Queues, Manager.Timers, SeqGt, Whole, Placed, FinAcknowledged, Rewinding, Lingering;
    EarlyIsIdle(tcp, s);
    Place(s, ackSeq, ackSeq);
    Acknowledge(s);
    UpdateRetransmissionTimer(tcp, s, curTs);
    Linger(tcp, s, TIME_WAIT, curTs);
  }

  // ---- resets

  /** The reset destroys the stream. */
  predicate EndsBy(c: Conn, ackSeq: u32) {
    (c.view.state == SYN_RCVD && ackSeq == c.num.nxt) || Finishing(c.view.state)
  }

  /** user_tcp_process_rst; true if the segment needs no further handling. */
  method ProcessRst(tcp: Manager, s: Stream, ackSeq: u32, closing: bool) returns (done: bool)
    requires tcp.Valid() && s in tcp.streams
    modifies tcp`controlList, tcp`controlListCnt, tcp`sendList, tcp`sendListCnt, tcp`ackList, tcp`ackListCnt
    modifies tcp`rtoList, tcp`rtoListCnt, tcp`timewaitList, tcp`timewaitListCnt, tcp`timeoutList
    modifies tcp`timeoutListCnt, tcp`streams, s`state, s`closeReason
    modifies s`onControlList, s`onSendList, s`onAckList, s`onRtoIdx, s`onTimewaitList, s`onTimeoutList
    ensures tcp.Valid() && (done <==> old(s.state).Code() > SYN_SENT.Code())
    ensures Whole(s) == if done then ResetBy(old(Whole(s)), ackSeq, closing) else old(Whole(s))
    ensures tcp.streams == if done && EndsBy(old(Whole(s)), ackSeq) then old(tcp.streams) - {s} else old(tcp.streams)
    ensures Plain(old(Look(s)), Look(s)) && (!done ==> Look(s) == old(Look(s)))
    ensures old(s.state) == SYN_RCVD ==>
      if ackSeq == old(s.sndNxt) then s.state == CLOSED && s !in tcp.streams && s.closeReason == RESET
      else s.state == SYN_RCVD
    ensures old(s.state) == ESTABLISHED || old(s.state) == CLOSE_WAIT ==>
      if closing then s.state == old(s.state) else s.state == CLOSE_WAIT && s.closeReason == RESET
    ensures old(s.state).Code() > CLOSE_WAIT.Code() ==> s.state == CLOSED && s !in tcp.streams
  {
    hide Manager.Valid, Whole, Look, ResetBy, Plain;
    ghost var c := Whole(s);
    ShowsAll(s);
    ResetMeans(c, ackSeq, closing);
    done := TakeReset(tcp, s, ackSeq, closing);
    ShowsAll(s);
  }

  /** What a reset makes of a connection: an answered SYN is undone if the reset acknowledges just that, an
      open connection waits to be closed unless that has begun, and any other one is over. */
  predicate ResetExpected(c: Conn, e: Conn, ackSeq: u32, closing: bool) {
    var s := c.view.state;
    && (s == SYN_RCVD ==>
          if ackSeq == c.num.nxt then e.view.state == CLOSED && e.ending.reason == RESET else e.view == c.view)
    && (s == ESTABLISHED || s == CLOSE_WAIT ==>
          if closing then e.view == c.view else e.view.state == CLOSE_WAIT && e.ending.reason == RESET)
    && (s.Code() > CLOSE_WAIT.Code() ==> e.view.state == CLOSED && EndsBy(c, ackSeq))
  }

  lemma ResetMeans(c: Conn, ackSeq: u32, closing: bool)
    ensures Plain(c.view, c.view)
    ensures c.view.state.Code() > SYN_SENT.Code() ==>
      var e := ResetBy(c, ackSeq, closing); Plain(c.view, e.view) && ResetExpected(c, e, ackSeq, closing)
  {}

  /** ... with the stream as a value. */
  method TakeReset(tcp: Manager, s: Stream, ackSeq: u32, closing: bool) returns (done: bool)
    requires tcp.Valid() && s in tcp.streams
    modifies tcp`controlList, tcp`controlListCnt, tcp`sendList, tcp`sendListCnt, tcp`ackList, tcp`ackListCnt
    modifies tcp`rtoList, tcp`rtoListCnt, tcp`timewaitList, tcp`timewaitListCnt, tcp`timeoutList
    modifies tcp`timeoutListCnt, tcp`streams, s`state, s`closeReason
    modifies s`onControlList, s`onSendList, s`onAckList, s`onRtoIdx, s`onTimewaitList, s`onTimeoutList
    ensures tcp.Valid() && (done <==> old(s.state).Code() > SYN_SENT.Code())
    ensures Whole(s) == if done then ResetBy(old(Whole(s)), ackSeq, closing) else old(Whole(s))
    ensures tcp.streams == if done && EndsBy(old(Whole(s)), ackSeq) then old(tcp.streams) - {s} else old(tcp.streams)
  {
    hide Manager.Queues, Manager.Timers, Whole, Over, Off, Moved, Reasoned;
    Shows(s);
    ShowsNumbers(s);
    EarlyIsIdle(tcp, s);
    if s.state.Code() <= SYN_SENT.Code() {
      return false;
    }
    if s.state == SYN_RCVD {
      if ackSeq == s.sndNxt {
        End(tcp, s, RESET);
      }
      return true;
    }
    if s.state == FIN_WAIT_1 || s.state == FIN_WAIT_2 || s.state == LAST_ACK || s.state == CLOSING ||
      s.state == TIME_WAIT {
      End(tcp, s, ACTIVE_CLOSE);
      return true;
    }
    if !closing {
      Enter(tcp, s, CLOSE_WAIT);
      GiveReason(s, RESET);
    }
    return true;
  }

  // ---- user_tcp_process

  function Max(a: nat, b: nat): nat {
    if a < b then b else a
  }

  /** The window test of user_tcp_validseq (lines 775-811); a segment that fails it is answered
      and dropped. */
  method ValidSeq(tcp: Manager, s: Stream, p: Packet, rcvWnd: u32, curTs: u32) returns (valid: bool)
    requires tcp.Valid() && s in tcp.streams && s.state != LISTEN
    modifies tcp`ackList, tcp`ackListCnt, s`onAckList, s`ackCnt, s`isWack, tcp`rtoList, tcp`rtoListCnt, s`onRtoIdx
    modifies s`state, tcp`timewaitList, tcp`timewaitListCnt, s`onTimewaitList, s`tsTwExpire, tcp`controlList
    modifies tcp`controlListCnt, s`onControlList
    ensures tcp.Valid() && (valid <==> SeqBetween(p.End(), s.rcvNxt, Wrap(s.rcvNxt + rcvWnd)))
    ensures Whole(s) == if valid then old(Whole(s)) else RejectedBy(old(Whole(s)), p, curTs)
    ensures Look(s) == old(Look(s))
    // a segment that is not a reset is answered: in ESTABLISHED with one acknowledgement for old data,
    // one more for new data, and in the other states with a control packet
    ensures !valid && !p.rst && s.state == ESTABLISHED ==>
      s.onAckList && s.ackCnt == if SeqLeq(p.seqNum, s.rcvNxt) || Wrap(p.seqNum + 1) == s.rcvNxt
        then Max(old(s.ackCnt), 1) else (old(s.ackCnt) + 1) % 64
    ensures !valid && !p.rst && s.state != ESTABLISHED ==> s.onControlList
    ensures !valid && !p.rst && s.state == TIME_WAIT ==> s.onTimewaitList && s.tsTwExpire == curTs
    ensures valid || p.rst ==>
      s.onAckList == old(s.onAckList) && s.onControlList == old(s.onControlList) && s.ackCnt == old(s.ackCnt)
  {
    hide Manager.Queues, Manager.Timers, SeqBetween, SeqLeq, Wrap, Whole, Look, RejectedBy;
    ghost var c := Whole(s);
    ShowsAll(s);
    RejectedMeans(c, p, curTs);
    valid := SeqBetween(p.End(), s.rcvNxt, Wrap(s.rcvNxt + rcvWnd));
    if !valid {
      Reject(tcp, s, p, curTs);
    }
    ShowsAll(s);
  }

  lemma RejectedMeans(c: Conn, p: Packet, ts: u32)
    ensures var e := RejectedBy(c, p, ts);
      && e.view == c.view && e.num == c.num && (p.rst ==> e == c)
      && (!p.rst && c.view.state == ESTABLISHED ==> e.links.acking)
      && (!p.rst && c.view.state == ESTABLISHED ==>
            e.links.ackCnt == if SeqLeq(p.seqNum, c.view.rcvNxt) || Wrap(p.seqNum + 1) == c.view.rcvNxt
              then Max(c.links.ackCnt, 1) else (c.links.ackCnt + 1) % 64)
      && (!p.rst && c.view.state != ESTABLISHED ==> e.links.controlling)
      && (!p.rst && c.view.state == TIME_WAIT ==> e.clock.lingers && e.clock.expire == ts)
  {
    hide Wrap, SeqLeq;
  }

  /** Lines 775-810. */
  method Reject(tcp: Manager, s: Stream, p: Packet, curTs: u32)
    requires tcp.Valid() && s in tcp.streams
    modifies tcp`ackList, tcp`ackListCnt, s`onAckList, s`ackCnt, s`isWack, tcp`rtoList, tcp`rtoListCnt, s`onRtoIdx
    modifies s`state, tcp`timewaitList, tcp`timewaitListCnt, s`onTimewaitList, s`tsTwExpire, tcp`controlList
    modifies tcp`controlListCnt, s`onControlList
    ensures tcp.Valid() && Whole(s) == RejectedBy(old(Whole(s)), p, curTs)
  {
    hide Manager.Queues, Manager.Timers, SeqLeq, Wrap, Whole, Owing, Lingering, Queued;
    Shows(s);
    if !p.rst {
      if s.state == ESTABLISHED {
        AnswerOld(tcp, s, p.seqNum);
      } else {
        if s.state == TIME_WAIT {
          Linger(tcp, s, TIME_WAIT, curTs);
        }
        WantControl(tcp, s);
      }
    }
  }

  /** Lines 784-797. */
  method AnswerOld(tcp: Manager, s: Stream, seqNum: u32)
    requires tcp.Queues() && s in tcp.streams
    modifies tcp`ackList, tcp`ackListCnt, s`onAckList, s`ackCnt, s`isWack
    ensures tcp.Queues()
    ensures Whole(s) ==
      Owing(old(Whole(s)), if SeqLeq(seqNum, s.rcvNxt) || Wrap(seqNum + 1) == s.rcvNxt then AGGREGATE else NOW)
  {
    hide Manager.Queues, SeqLeq, Wrap, Whole, Owing;
    if Wrap(seqNum + 1) == s.rcvNxt {
      EnqueueAck(tcp, s, AGGREGATE);
    } else if SeqLeq(seqNum, s.rcvNxt) {
      EnqueueAck(tcp, s, AGGREGATE);
    } else {
      EnqueueAck(tcp, s, NOW);
    }
  }

  /** Lines 1972-1981: a segment in TIME_WAIT starts the waiting time over, is answered, and changes
      nothing else. */
  method HandleTimeWait(tcp: Manager, s: Stream, curTs: u32)
    requires tcp.Valid() && s in tcp.streams && s.state == TIME_WAIT
    modifies s`state, tcp`rtoList, tcp`rtoListCnt, s`onRtoIdx, tcp`timewaitList, tcp`timewaitListCnt, s`onTimewaitList
    modifies s`tsTwExpire, tcp`controlList, tcp`controlListCnt, s`onControlList
    ensures tcp.Valid() && Whole(s) == TimeWaitTo(old(Whole(s)), curTs)
    ensures Look(s) == old(Look(s)) && s.onTimewaitList == old(s.onTimewaitList)
    ensures s.onControlList && s.tsTwExpire == if s.onTimewaitList then curTs else old(s.tsTwExpire)
    ensures tcp.timewaitList == if s.onTimewaitList then Without(old(tcp.timewaitList), s) + [s]
      else old(tcp.timewaitList)
  {
    hide Manager.Queues, Manager.Timers, Whole, Look, Queued, Without;
    ghost var c := Whole(s);
    ShowsAll(s);
    TimeWaitMeans(c, curTs);
    if s.onTimewaitList {
      Unlinger(tcp, s);
      Linger(tcp, s, TIME_WAIT, curTs);
    }
    WantControl(tcp, s);
    Shows(s);
  }

  lemma TimeWaitMeans(c: Conn, ts: u32)
    requires c.view.state == TIME_WAIT
    ensures TimeWaitTo(c, ts).view == c.view && Lingering(Released(c), TIME_WAIT, ts) == Lingering(c, TIME_WAIT, ts)
  {}

  function Released(c: Conn): Conn {
    c.(clock := c.clock.(lingers := false))
  }

  method Unlinger(tcp: Manager, s: Stream)
    requires tcp.Timers() && s in tcp.streams && s.onTimewaitList
    modifies tcp`timewaitList, tcp`timewaitListCnt, s`onTimewaitList
    ensures tcp.Timers() && !s.onTimewaitList && tcp.timewaitList == Without(old(tcp.timewaitList), s)
    ensures Whole(s) == Released(old(Whole(s)))
  {
    hide Manager.RtoOk, Manager.TimewaitOk, Manager.TimeoutOk;
    hide Look, NumbersOf, LinksOf, InboxOf, EndingOf, OwnerOf;
    tcp.RemoveFromTimewaitList(s);
  }

  /** The segment is not dropped by the window test, which is made once the handshake is over. */
  predicate InWindow(state: State, p: Packet, rcvNxt: u32, rcvWnd: u32) {
    state.Code() <= SYN_RCVD.Code() || SeqBetween(p.End(), rcvNxt, Wrap(rcvNxt + rcvWnd))
  }

  /** The application has asked for a close or a reset. */
  predicate BeingClosed(v: View, resetting: bool) {
    v.request.onCloseq || v.request.onCloseqInt || resetting
  }

  /** The segment is noted (lines 1882-1898). */
  function Noted(c: Conn, rst: bool, ts: u32): Conn {
    c.(clock := c.clock.(active := ts), ending := c.ending.(reset := c.ending.reset || rst))
  }

  /** The reset is dealt with before the switch. */
  predicate Resets(c: Conn, p: Packet) {
    p.rst && c.view.state.Code() > SYN_SENT.Code()
  }

  function PassedTo(c: Conn, p: Packet, d: DataPath, env: Env): Conn {
    var e := Noted(c, p.rst, env.curTs);
    if Resets(c, p) then ResetBy(e, p.ackSeq, BeingClosed(c.view, env.resetting)) else HandledBy(e, p, d, env)
  }

  /** What user_tcp_process makes of a stream. */
  function SegmentTo(c: Conn, p: Packet, d: DataPath, env: Env): Conn {
    if InWindow(c.view.state, p, c.view.rcvNxt, env.rcvWnd) then PassedTo(c, p, d, env)
    else RejectedBy(c, p, env.curTs)
  }

  /** The handler ends the program, fails an assertion or goes on with a destroyed stream. */
  predicate Stalls(c: Conn, p: Packet) {
    match c.view.state
    case LISTEN => !p.syn
    case SYN_SENT => !c.owner.socket && AfterSynSent(p, c.iss, c.num.nxt) == ESTABLISHED
    case SYN_RCVD => !(p.syn && p.seqNum == c.irs) && p.ack && p.ackSeq != Wrap(c.iss + 1)
    case _ => false
  }

  /** The source does not survive the segment. */
  predicate Stops(c: Conn, p: Packet, env: Env) {
    InWindow(c.view.state, p, c.view.rcvNxt, env.rcvWnd) && !Resets(c, p) && Stalls(c, p)
  }

  /** The handler destroys the stream. */
  predicate Drops(c: Conn, p: Packet) {
    match c.view.state
    case SYN_SENT =>
      var to := AfterSynSent(p, c.iss, c.num.nxt); !c.owner.socket && (to == CLOSE_WAIT || to == ESTABLISHED)
    case LAST_ACK => !SeqLt(p.seqNum, c.view.rcvNxt) && AcksFin(p, c.view.finSent, c.view.fss)
    case _ => false
  }

  /** The segment is the last of the stream. */
  predicate Destroys(c: Conn, p: Packet, env: Env) {
    InWindow(c.view.state, p, c.view.rcvNxt, env.rcvWnd) &&
    if Resets(c, p) then EndsBy(c, p.ackSeq) else Drops(c, p)
  }

  /** What is to be expected of a segment that has passed the window test and is no reset, state by state
      (section 3.10.7 of RFC 9293, with line 1296 for FIN_WAIT_1). */
  ghost predicate Expected(c: Conn, e: Conn, p: Packet, d: DataPath, env: Env) {
    var s, v, w := c.view.state, c.view, e.view;
    var finIn, acked, late := FinInOrder(s, p, v.rcvNxt, d), AcksFin(p, v.finSent, v.fss), SeqLt(p.seqNum, v.rcvNxt);
    // the handshake
    && (s == LISTEN && p.syn ==>
          w.state == SYN_RCVD && w.rcvNxt == Wrap(v.rcvNxt + 1) && e.links.controlling)
    && (s == SYN_RCVD && p.ack && p.ackSeq == Wrap(c.iss + 1) && !(p.syn && p.seqNum == c.irs) ==>
          && e.clock.watched
          && if env.acceptFull then w.state == CLOSED && e.links.controlling
             else w.state == if p.len > 0 && FinInOrder(ESTABLISHED, p, Wrap(c.irs + 1), d) then CLOSE_WAIT
               else ESTABLISHED)
    // the states that take data
    && (s == ESTABLISHED || s == FIN_WAIT_1 || s == FIN_WAIT_2 ==>
          w.rcvNxt == NextNumber(s, p, v.rcvNxt, d) && w.peerFin == (v.peerFin || finIn))
    && (s == ESTABLISHED ==> w.state == if finIn then CLOSE_WAIT else ESTABLISHED)
    && (s == FIN_WAIT_1 ==> w.state == AfterFinWait1(s, p, v.finSent, v.fss, v.rcvNxt, d.rcvNxt))
    && (s == FIN_WAIT_2 ==> w.state == if finIn then TIME_WAIT else FIN_WAIT_2)
    // the end
    && (s == LAST_ACK ==> w.state == if !late && acked then CLOSED else LAST_ACK)
    && (s == CLOSING ==> w.state == if acked then TIME_WAIT else CLOSING)
    && w.finAcked == (v.finAcked || (acked && (s == CLOSING || ((s == FIN_WAIT_1 || s == LAST_ACK) && !late))))
    && (s == TIME_WAIT ==> e.links.controlling && (c.clock.lingers ==> e.clock.expire == env.curTs))
    && (w.state == TIME_WAIT && s != TIME_WAIT ==> e.clock.lingers && e.clock.expire == env.curTs && !e.clock.timed)
    && (s == CLOSE_WAIT || s == TIME_WAIT || s == CLOSED ==> w == v)
  }

  lemma HandledLegally(c: Conn, p: Packet, d: DataPath, env: Env)
    ensures OnSegment(c.view, HandledBy(c, p, d, env).view, p, d)
    ensures !Stalls(c, p) ==> Expected(c, HandledBy(c, p, d, env), p, d, env)
  {
    hide Wrap, SeqLt, SeqLeq, SeqGt;
    match c.view.state
    case LISTEN => PlainIsLegal(c.view, HandledBy(c, p, d, env).view, p, d);
    case SYN_SENT => SynSentLegal(c, p, d, env);
    case SYN_RCVD => PassiveLegal(c, p, d, env);
    case ESTABLISHED => EstablishedLegal(c, p, d, env);
    case CLOSE_WAIT => CloseWaitLegal(c, p, d, env);
    case LAST_ACK => LastAckLegal(c, p, d, env);
    case FIN_WAIT_1 => FinWait1Legal(c, p, d, env);
    case FIN_WAIT_2 => FinWait2Legal(c, p, d, env);
    case CLOSING => ClosingLegal(c, p, d, env);
    case TIME_WAIT => PlainIsLegal(c.view, c.view, p, d);
    case CLOSED => PlainIsLegal(c.view, c.view, p, d);
  }

  lemma SynSentLegal(c: Conn, p: Packet, d: DataPath, env: Env)
    requires c.view.state == SYN_SENT
    ensures OnSegment(c.view, HandledBy(c, p, d, env).view, p, d)
    ensures Expected(c, HandledBy(c, p, d, env), p, d, env)
  {
    hide SynSentTo, Wrap, SeqLt, SeqLeq, SeqGt, OnSegment;
    SynSentMeans(c, p);
    PlainIsLegal(c.view, SynSentTo(c, p).view, p, d);
  }

  lemma PassiveLegal(c: Conn, p: Packet, d: DataPath, env: Env)
    requires c.view.state == SYN_RCVD
    ensures OnSegment(c.view, HandledBy(c, p, d, env).view, p, d)
    ensures !Stalls(c, p) ==> Expected(c, HandledBy(c, p, d, env), p, d, env)
  {
    hide SynRcvdTo, EstablishedTo, Wrap, SeqLt, SeqLeq, SeqGt, OnSegment;
    var e := SynRcvdTo(c, p, env.acceptFull);
    SynRcvdMeans(c, p, env.acceptFull);
    PlainIsLegal(c.view, e.view, p, d);
    PlainIsLegal(c.view, Greeted(c).view, p, d);
    if e.view.state == ESTABLISHED {
      EstablishedMeans(e, p, d);
      StaysWatched(e, p, d);
      AfterHandshake(c.view, e.view, EstablishedTo(e, p, d).view, p, d);
    }
  }

  /** The segment that completes the handshake may carry data and a FIN. */
  lemma AfterHandshake(u: View, v: View, w: View, p: Packet, d: DataPath)
    requires Plain(u, v) && u.state == SYN_RCVD && v.state == ESTABLISHED && OnSegment(v, w, p, d)
    requires w.state == ESTABLISHED || w.state == CLOSE_WAIT
    ensures p.len > 0 ==> OnSegment(u, w, p, d)
  {}

  lemma StaysWatched(c: Conn, p: Packet, d: DataPath)
    ensures EstablishedTo(c, p, d).clock.watched == c.clock.watched
    ensures EstablishedTo(c, p, d).view.finAcked == c.view.finAcked
  {
    hide Wrap, SeqGt;
  }

  lemma EstablishedLegal(c: Conn, p: Packet, d: DataPath, env: Env)
    requires c.view.state == ESTABLISHED
    ensures OnSegment(c.view, HandledBy(c, p, d, env).view, p, d)
    ensures Expected(c, HandledBy(c, p, d, env), p, d, env)
  {
    hide EstablishedTo, Wrap, SeqLt, SeqLeq, SeqGt, OnSegment;
    EstablishedMeans(c, p, d);
    StaysWatched(c, p, d);
  }

  lemma CloseWaitLegal(c: Conn, p: Packet, d: DataPath, env: Env)
    requires c.view.state == CLOSE_WAIT
    ensures OnSegment(c.view, HandledBy(c, p, d, env).view, p, d)
    ensures Expected(c, HandledBy(c, p, d, env), p, d, env)
  {
    hide AckTaken, Wrap, SeqLt, SeqLeq, SeqGt;
    AckTakenKeeps(c, d);
    PlainIsLegal(c.view, c.view, p, d);
  }

  lemma LastAckLegal(c: Conn, p: Packet, d: DataPath, env: Env)
    requires c.view.state == LAST_ACK
    ensures OnSegment(c.view, HandledBy(c, p, d, env).view, p, d)
    ensures Expected(c, HandledBy(c, p, d, env), p, d, env)
  {
    hide LastAckTo, Wrap, SeqLt, SeqLeq, SeqGt, OnSegment, AcksFin;
    LastAckMeans(c, p, d);
  }

  lemma FinWait1Legal(c: Conn, p: Packet, d: DataPath, env: Env)
    requires c.view.state == FIN_WAIT_1
    ensures OnSegment(c.view, HandledBy(c, p, d, env).view, p, d)
    ensures Expected(c, HandledBy(c, p, d, env), p, d, env)
  {
    hide FinWait1To, Wrap, SeqLt, SeqLeq, SeqGt, OnSegment, NextNumber;
    FinWait1Means(c, p, d, env.curTs);
    FinWait1Values(c, p, d, env.curTs);
  }

  lemma FinWait2Legal(c: Conn, p: Packet, d: DataPath, env: Env)
    requires c.view.state == FIN_WAIT_2
    ensures OnSegment(c.view, HandledBy(c, p, d, env).view, p, d)
    ensures Expected(c, HandledBy(c, p, d, env), p, d, env)
  {
    hide FinWait2To, Wrap, SeqLt, SeqLeq, SeqGt, OnSegment, NextNumber;
    FinWait2Means(c, p, d, env.curTs);
  }

  lemma ClosingLegal(c: Conn, p: Packet, d: DataPath, env: Env)
    requires c.view.state == CLOSING
    ensures OnSegment(c.view, HandledBy(c, p, d, env).view, p, d)
    ensures Expected(c, HandledBy(c, p, d, env), p, d, env)
  {
    hide ClosingTo, Wrap, SeqLt, SeqLeq, SeqGt, OnSegment, AcksFin;
    ClosingMeans(c, p, d, env.curTs);
  }

  /** Every segment moves the connection along the arcs of the diagram, and counts a FIN only if it
      acknowledges or carries it; one outside the window or at which the source stops changes no state; any
      other one does what is expected of it. */
  lemma SegmentMeans(c: Conn, p: Packet, d: DataPath, env: Env)
    ensures var e := SegmentTo(c, p, d, env);
      && OnSegment(c.view, e.view, p, d)
      && (InWindow(c.view.state, p, c.view.rcvNxt, env.rcvWnd) && !Resets(c, p) && !Stalls(c, p) ==>
            Expected(c, e, p, d, env))
      && (!InWindow(c.view.state, p, c.view.rcvNxt, env.rcvWnd) ==> e.view == c.view && e.num == c.num)
      && (InWindow(c.view.state, p, c.view.rcvNxt, env.rcvWnd) && p.rst ==> e.ending.reset)
      && (InWindow(c.view.state, p, c.view.rcvNxt, env.rcvWnd) && Resets(c, p) ==>
            ResetExpected(c, e, p.ackSeq, BeingClosed(c.view, env.resetting)))
      && (Destroys(c, p, env) ==> e.view.state == CLOSED || c.view.state == SYN_SENT)
  {
    hide HandledBy, ResetBy, RejectedBy, OnSegment, Expected, InWindow, Wrap, SeqLt, AfterSynSent, AcksFin;
    var n := Noted(c, p.rst, env.curTs);
    RejectedMeans(c, p, env.curTs);
    PlainIsLegal(c.view, c.view, p, d);
    ResetMeans(n, p.ackSeq, BeingClosed(c.view, env.resetting));
    HandledLegally(n, p, d, env);
    NotedKeeps(c, HandledBy(n, p, d, env), p, d, env);
    if c.view.state.Code() <= SYN_SENT.Code() {
      HandledKeepsReset(n, p, d, env);
    }
    ResetKeepsReset(n, p.ackSeq, BeingClosed(c.view, env.resetting));
    if Resets(c, p) {
      PlainIsLegal(c.view, ResetBy(n, p.ackSeq, BeingClosed(c.view, env.resetting)).view, p, d);
    }
    DropsClosed(n, p, d, env);
  }

  lemma NotedKeeps(c: Conn, e: Conn, p: Packet, d: DataPath, env: Env)
    ensures var n := Noted(c, p.rst, env.curTs);
      (Expected(n, e, p, d, env) <==> Expected(c, e, p, d, env)) && (Stalls(n, p) <==> Stalls(c, p)) &&
      (Drops(n, p) <==> Drops(c, p)) && (EndsBy(n, p.ackSeq) <==> EndsBy(c, p.ackSeq)) &&
      (Resets(n, p) <==> Resets(c, p)) && n.view == c.view
  {}

  lemma HandledKeepsReset(c: Conn, p: Packet, d: DataPath, env: Env)
    requires c.view.state.Code() <= SYN_SENT.Code()
    ensures HandledBy(c, p, d, env).ending.reset == c.ending.reset
  {
    hide Wrap, SeqLeq, SeqGt;
  }

  lemma ResetKeepsReset(c: Conn, ackSeq: u32, closing: bool)
    ensures ResetBy(c, ackSeq, closing).ending.reset == c.ending.reset
  {}

  lemma DropsClosed(c: Conn, p: Packet, d: DataPath, env: Env)
    ensures Drops(c, p) ==> HandledBy(c, p, d, env).view.state == CLOSED || c.view.state == SYN_SENT
  {
    hide LastAckTo, Wrap, SeqLt, SeqLeq, SeqGt, OnSegment, AcksFin;
    if c.view.state == LAST_ACK {
      LastAckMeans(c, p, d);
    }
  }

  /** user_tcp_process: every segment moves the connection on, whatever its state, as is expected of it, and
      counts a FIN only if it acknowledges or carries it; a segment outside the receive window does not
      touch the state. False if the source would end the program, fail an assertion or go on with a
      destroyed stream. */
  method Process(tcp: Manager, s: Stream, p: Packet, d: DataPath, env: Env) returns (ok: bool)
    requires tcp.Valid() && s in tcp.streams
    modifies tcp, s
    ensures old(tcp.rtoNowIdx) == 0 ==> tcp.rtoNowIdx == 0
    ensures tcp.log == old(tcp.log) && tcp.room == old(tcp.room)
    ensures tcp.Valid() && (ok <==> !Stops(old(Whole(s)), p, env))
    ensures Whole(s) == SegmentTo(old(Whole(s)), p, d, env)
    ensures tcp.streams == if Destroys(old(Whole(s)), p, env) then old(tcp.streams) - {s} else old(tcp.streams)
    // what this means: see SegmentMeans
    ensures OnSegment(old(Look(s)), Look(s), p, d)
    ensures InWindow(old(s.state), p, old(s.rcvNxt), env.rcvWnd) && !Resets(old(Whole(s)), p) && ok ==>
      Expected(old(Whole(s)), Whole(s), p, d, env)
    ensures InWindow(old(s.state), p, old(s.rcvNxt), env.rcvWnd) && p.rst ==> s.haveReset
    ensures InWindow(old(s.state), p, old(s.rcvNxt), env.rcvWnd) && Resets(old(Whole(s)), p) ==>
      ResetExpected(old(Whole(s)), Whole(s), p.ackSeq, BeingClosed(old(Look(s)), env.resetting))
    ensures s !in tcp.streams ==> s.state == CLOSED || old(s.state) == SYN_SENT
    ensures !InWindow(old(s.state), p, old(s.rcvNxt), env.rcvWnd) ==>
      Look(s) == old(Look(s)) && tcp.streams == old(tcp.streams) && s.sndNxt == old(s.sndNxt) &&
        s.peerWnd == old(s.peerWnd)
    ensures InWindow(old(s.state), p, old(s.rcvNxt), env.rcvWnd) ==>
      s.peerWnd == ScaledWindow(p.window, old(s.wscalePeer), p.syn)
  {
    hide Manager.Valid, Whole, Look, OnSegment, Expected, SegmentTo, Stops, Destroys, InWindow, ScaledWindow, Resets;
    hide ResetExpected, BeingClosed;
    ghost var c := Whole(s);
    Shows(s);
    ShowsNumbers(s);
    SegmentMeans(c, p, d, env);
    StopsMeans(c, p, env);
    ok := TakeSegment(tcp, s, p, d, env);
    Shows(s);
    ShowsNumbers(s);
    ShowsReason(s);
  }

  lemma StopsMeans(c: Conn, p: Packet, env: Env)
    ensures Stops(c, p, env) ==> InWindow(c.view.state, p, c.view.rcvNxt, env.rcvWnd) && !Resets(c, p) && Stalls(c, p)
    ensures !Stops(c, p, env) && InWindow(c.view.state, p, c.view.rcvNxt, env.rcvWnd) && !Resets(c, p) ==> !Stalls(c, p)
    ensures Destroys(c, p, env) ==> InWindow(c.view.state, p, c.view.rcvNxt, env.rcvWnd)
  {}

  /** ... with the stream as a value. */
  method TakeSegment(tcp: Manager, s: Stream, p: Packet, d: DataPath, env: Env) returns (ok: bool)
    requires tcp.Valid() && s in tcp.streams
    modifies tcp, s
    ensures old(tcp.rtoNowIdx) == 0 ==> tcp.rtoNowIdx == 0
    ensures tcp.log == old(tcp.log) && tcp.room == old(tcp.room)
    ensures tcp.Valid() && (ok <==> !Stops(old(Whole(s)), p, env))
    ensures Whole(s) == SegmentTo(old(Whole(s)), p, d, env)
    ensures tcp.streams == if Destroys(old(Whole(s)), p, env) then old(tcp.streams) - {s} else old(tcp.streams)
    ensures s.peerWnd == if InWindow(old(s.state), p, old(s.rcvNxt), env.rcvWnd)
      then ScaledWindow(p.window, old(s.wscalePeer), p.syn) else old(s.peerWnd)
  {
    hide Manager.Queues, Manager.Timers, Whole, PassedTo, RejectedBy, Stalls, Resets, EndsBy, Drops;
    hide Wrap, SeqBetween, Look, ScaledWindow;
    Shows(s);
    if s.state.Code() > SYN_RCVD.Code() {
      var valid := ValidSeq(tcp, s, p, env.rcvWnd, env.curTs);
      if !valid {
        return true;
      }
    }
    ok := Passed(tcp, s, p, d, env);
  }

  /** Lines 1882-1986: a segment that has passed the window test. */
  method Passed(tcp: Manager, s: Stream, p: Packet, d: DataPath, env: Env) returns (ok: bool)
    requires tcp.Valid() && s in tcp.streams
    modifies tcp, s
    ensures old(tcp.rtoNowIdx) == 0 ==> tcp.rtoNowIdx == 0
    ensures tcp.log == old(tcp.log) && tcp.room == old(tcp.room)
    ensures tcp.Valid() && (ok <==> Resets(old(Whole(s)), p) || !Stalls(old(Whole(s)), p))
    ensures Whole(s) == PassedTo(old(Whole(s)), p, d, env)
    ensures tcp.streams == if (if Resets(old(Whole(s)), p) then EndsBy(old(Whole(s)), p.ackSeq)
      else Drops(old(Whole(s)), p)) then old(tcp.streams) - {s} else old(tcp.streams)
    ensures s.peerWnd == ScaledWindow(p.window, old(s.wscalePeer), p.syn)
  {
    hide Manager.Queues, Manager.Timers, Whole, ScaledWindow, HandledBy, ResetBy, Stalls, EndsBy, Drops, Noted, Resets;
    hide BeingClosed;
    NotedKeeps(Whole(s), Whole(s), p, d, env);
    ok := true;
    s.peerWnd := ScaledWindow(p.window, s.wscalePeer, p.syn);
    Note(tcp, s, p.rst, env.curTs);
    var done := ResetFirst(tcp, s, p, env.resetting);
    if done {
      return;
    }
    ok := Handle(tcp, s, p, d, env);
  }

  /** Lines 1897-1904. */
  method ResetFirst(tcp: Manager, s: Stream, p: Packet, resetting: bool) returns (done: bool)
    requires tcp.Valid() && s in tcp.streams
    modifies tcp`controlList, tcp`controlListCnt, tcp`sendList, tcp`sendListCnt, tcp`ackList, tcp`ackListCnt
    modifies tcp`rtoList, tcp`rtoListCnt, tcp`timewaitList, tcp`timewaitListCnt, tcp`timeoutList
    modifies tcp`timeoutListCnt, tcp`streams, s`state, s`closeReason
    modifies s`onControlList, s`onSendList, s`onAckList, s`onRtoIdx, s`onTimewaitList, s`onTimeoutList
    ensures tcp.Valid() && (done <==> Resets(old(Whole(s)), p))
    ensures Whole(s) ==
      if done then ResetBy(old(Whole(s)), p.ackSeq, BeingClosed(old(Whole(s)).view, resetting)) else old(Whole(s))
    ensures tcp.streams == if done && EndsBy(old(Whole(s)), p.ackSeq) then old(tcp.streams) - {s}
      else old(tcp.streams)
  {
    hide Manager.Valid, Whole, ResetBy, EndsBy, Plain, Look;
    ShowsAll(s);
    done := false;
    if p.rst {
      if s.state.Code() > SYN_SENT.Code() {
        done := ProcessRst(tcp, s, p.ackSeq, s.request.onCloseq || s.request.onCloseqInt || resetting);
      }
    }
  }

  /** Lines 1892-1898. */
  method Note(tcp: Manager, s: Stream, rst: bool, curTs: u32)
    requires tcp.Timers() && s in tcp.streams
    modifies s`lastActiveTs, s`haveReset, tcp`timeoutList
    ensures tcp.Timers() && Whole(s) == Noted(old(Whole(s)), rst, curTs)
  {
    hide Manager.Timers, Look, NumbersOf, LinksOf, InboxOf, OwnerOf;
    s.lastActiveTs := curTs;
    Touch(tcp, s);
    if rst {
      s.haveReset := true;
    }
  }

  /** Lines 1906-1986. */
  method Handle(tcp: Manager, s: Stream, p: Packet, d: DataPath, env: Env) returns (ok: bool)
    requires tcp.Valid() && s in tcp.streams
    modifies tcp, s
    ensures old(tcp.rtoNowIdx) == 0 ==> tcp.rtoNowIdx == 0
    ensures tcp.log == old(tcp.log) && tcp.room == old(tcp.room)
    ensures s.peerWnd == old(s.peerWnd)
    ensures tcp.Valid() && (ok <==> !Stalls(old(Whole(s)), p)) && Whole(s) == HandledBy(old(Whole(s)), p, d, env)
    ensures tcp.streams == if Drops(old(Whole(s)), p) then old(tcp.streams) - {s} else old(tcp.streams)
  {
    hide Manager.Queues, Manager.Timers, Whole, Look, OnSegment, Plain, Wrap, SeqLeq, SeqGt;
    hide Greeted, SynSentTo, PassiveTo, AfterSynSent, Late;
    Shows(s);
    ShowsNumbers(s);
    ShowsOwner(s);
    match s.state {
      case LISTEN => ok := HandleListen(tcp, s, p);
      case SYN_SENT => ok := HandleSynSent(tcp, s, p, env.curTs);
      case SYN_RCVD => ok := SynRcvd(tcp, s, p, d, env);
      case _ =>
        HandleLate(tcp, s, p, d, env);
        ok := true;
    }
  }

  /** Lines 1936-1986. */
  method HandleLate(tcp: Manager, s: Stream, p: Packet, d: DataPath, env: Env)
    requires tcp.Valid() && s in tcp.streams && s.state != LISTEN && s.state != SYN_SENT && s.state != SYN_RCVD
    modifies tcp, s
    ensures old(tcp.rtoNowIdx) == 0 ==> tcp.rtoNowIdx == 0
    ensures tcp.log == old(tcp.log) && tcp.room == old(tcp.room)
    ensures s.peerWnd == old(s.peerWnd)
    ensures tcp.Valid() && Whole(s) == Late(old(Whole(s)), p, d, env)
    ensures tcp.streams == if Drops(old(Whole(s)), p) then old(tcp.streams) - {s} else old(tcp.streams)
  {
    hide Manager.Queues, Manager.Timers, Whole, Look, OnSegment, Wrap, SeqLt, SeqGt, AfterFinWait1;
    hide EstablishedTo, CloseWaitTo, LastAckTo, FinWait1To, FinWait2To, ClosingTo, TimeWaitTo;
    hide NextNumber, FinInOrder, AcksFin;
    Shows(s);
    match s.state {
      case ESTABLISHED => HandleEstablished(tcp, s, p, d, env.curTs);
      case CLOSE_WAIT => HandleCloseWait(tcp, s, p, d, env.curTs);
      case LAST_ACK => HandleLastAck(tcp, s, p, d, env.curTs);
      case FIN_WAIT_1 => HandleFinWait1(tcp, s, p, d, env.curTs);
      case FIN_WAIT_2 => HandleFinWait2(tcp, s, p, d, env.curTs);
      case CLOSING => HandleClosing(tcp, s, p, d, env.curTs);
      case TIME_WAIT => HandleTimeWait(tcp, s, env.curTs);
      case CLOSED =>
    }
  }

  /** Lines 1919-1935: a repeated SYN, or the acknowledgement that may bring data with it. */
  method SynRcvd(tcp: Manager, s: Stream, p: Packet, d: DataPath, env: Env) returns (ok: bool)
    requires tcp.Valid() && s in tcp.streams && s.state == SYN_RCVD
    modifies tcp, s
    ensures old(tcp.rtoNowIdx) == 0 ==> tcp.rtoNowIdx == 0
    ensures tcp.log == old(tcp.log) && tcp.room == old(tcp.room)
    ensures s.peerWnd == old(s.peerWnd) && tcp.streams == old(tcp.streams)
    ensures tcp.Valid() && Whole(s) == PassiveTo(old(Whole(s)), p, d, env.acceptFull)
    ensures ok <==> (p.syn && p.seqNum == s.irs) || !p.ack || p.ackSeq == Wrap(s.iss + 1)
  {
    hide Manager.Queues, Manager.Timers, Whole, Look, OnSegment, Plain, Wrap, Greeted, SynRcvdTo, EstablishedTo;
    hide NextNumber, FinInOrder;
    ShowsNumbers(s);
    if p.syn && p.seqNum == s.irs {
      ok := HandleListen(tcp, s, p);
    } else {
      ok := HandleSynRcvd(tcp, s, p, env.acceptFull);
      Shows(s);
      if ok && p.len > 0 && s.state == ESTABLISHED {
        HandleEstablished(tcp, s, p, d, env.curTs);
      }
    }
  }

  // ---- user_tcp_handle_apicall

  function Requesting(c: Conn, r: CloseRequest): Conn {
    c.(view := c.view.(request := r))
  }

  /** The application gives the stream up. */
  function GivenUpBy(c: Conn): Conn {
    if c.view.request.closed then c
    else Requesting(c, Asked(c.view.state, c.view.request)).(owner := c.owner.(socket := false))
  }

  /** user_close_stream_socket (lines 142-180 of src/user_api.c): the first call asks for a close, any
      further one does nothing. */
  method CloseStream(s: Stream)
    modifies s`request, s`hasSocket
    ensures Whole(s) == GivenUpBy(old(Whole(s)))
    ensures AsksClose(old(Look(s)), Look(s)) && s.hasSocket == (old(s.request).closed && old(s.hasSocket))
  {
    hide Whole, Look, Requesting;
    ghost var c := Whole(s);
    ShowsAll(s);
    GivingUpMeans(c);
    if s.request.closed {
      return;
    }
    LetGo(s);
    Request(s, Asked(s.state, s.request));
    ShowsAll(s);
  }

  lemma GivingUpMeans(c: Conn)
    ensures AsksClose(c.view, GivenUpBy(c).view)
    ensures GivenUpBy(c).owner == c.owner.(socket := c.view.request.closed && c.owner.socket)
    ensures var d := c.(owner := c.owner.(socket := false)); var r := Asked(c.view.state, c.view.request);
      Requesting(c, r).(owner := c.owner.(socket := false)) == Requesting(d, r)
  {}

  method LetGo(s: Stream)
    modifies s`hasSocket
    ensures !s.hasSocket && Whole(s) == old(Whole(s)).(owner := old(Whole(s)).owner.(socket := false))
  {
    hide Look, NumbersOf, LinksOf, ClockOf, InboxOf, EndingOf;
    s.hasSocket := false;
  }

  method Request(s: Stream, r: CloseRequest)
    modifies s`request
    ensures s.request == r && Whole(s) == Requesting(old(Whole(s)), r)
  {
    hide NumbersOf, LinksOf, ClockOf, InboxOf, EndingOf, OwnerOf;
    s.request := r;
  }

  /** The FIN gets the number behind the last byte written. */
  function FinNumbered(c: Conn, edge: u32): Conn {
    Unwatched(c).(view := c.view.(fss := if c.owner.sndbuf then edge else c.num.nxt))
  }

  /** The peer has reset the connection already. */
  function EndedByReset(c: Conn): Conn {
    if c.view.state == CLOSED then c else Off(Over(c, RESET))
  }

  /** The state of a connection that the application is done with. */
  function DoneSending(s: State): State {
    if s == ESTABLISHED then FIN_WAIT_1 else if s == CLOSE_WAIT then LAST_ACK else s
  }

  function WaitingOn(c: Conn): Conn {
    c.(links := c.links.(waiting := true))
  }

  /** The FIN goes out after everything else the stream waits to send. */
  function CloseStarted(c: Conn): Conn {
    var d := Moved(c, DoneSending(c.view.state));
    if c.links.sending || c.links.acking then WaitingOn(d) else if c.view.state != CLOSED then Queued(d) else c
  }

  /** A request to close is put aside as long as a control packet waits. */
  function CarriedOut(c: Conn): Conn {
    if c.ending.reset then EndedByReset(c)
    else if c.links.controlling then Requesting(c, c.view.request.(onCloseqInt := true)) else CloseStarted(c)
  }

  function CloseTo(c: Conn, edge: u32): Conn {
    CarriedOut(FinNumbered(Requesting(c, c.view.request.(onCloseq := false)), edge))
  }

  /** Lines 2244-2325 for one stream of the close queue. Its FIN will take the number behind the
      last byte written. Returns true if the request was put aside in the internal queue. */
  method ApiClose(tcp: Manager, s: Stream, edge: u32) returns (putAside: bool)
    requires tcp.Valid() && s in tcp.streams
    modifies tcp, s
    ensures old(tcp.rtoNowIdx) == 0 ==> tcp.rtoNowIdx == 0
    ensures tcp.log == old(tcp.log) && tcp.room == old(tcp.room)
    ensures tcp.Valid() && BeginsClose(old(Look(s)), Look(s)) && Whole(s) == CloseTo(old(Whole(s)), edge)
    ensures s.fss == (if s.hasSndbuf then edge else old(s.sndNxt)) && s.haveReset == old(s.haveReset)
    ensures putAside <==> !s.haveReset && old(s.onControlList)
    ensures s.request ==
      old(s.request).(onCloseq := false, onCloseqInt := old(s.request).onCloseqInt || putAside)
    ensures s.state == if s.haveReset then CLOSED else if putAside then old(s.state) else DoneSending(old(s.state))
    ensures s in tcp.streams && (s.state == FIN_WAIT_1 || s.state == LAST_ACK) && !putAside ==>
      s.onControlList || s.controlListWaiting
    ensures tcp.streams ==
      if s.haveReset && old(s.state) != CLOSED then old(tcp.streams) - {s} else old(tcp.streams)
  {
    hide Manager.Valid, Whole, Look, CloseTo, BeginsClose;
    ghost var c := Whole(s);
    ShowsAll(s);
    CloseMeans(c, edge);
    putAside := TakeClose(tcp, s, edge);
    ShowsAll(s);
  }

  lemma CloseMeans(c: Conn, edge: u32)
    ensures var e, aside := CloseTo(c, edge), !c.ending.reset && c.links.controlling;
      && BeginsClose(c.view, e.view) && e.view.fss == (if c.owner.sndbuf then edge else c.num.nxt)
      && e.owner == c.owner && e.ending.reset == c.ending.reset
      && e.view.request == c.view.request.(onCloseq := false, onCloseqInt := c.view.request.onCloseqInt || aside)
      && e.view.state == (if c.ending.reset then CLOSED else if aside then c.view.state else DoneSending(c.view.state))
      && ((e.view.state == FIN_WAIT_1 || e.view.state == LAST_ACK) && !aside ==> e.links.controlling || e.links.waiting)
  {}

  /** ... with the stream as a value. */
  method TakeClose(tcp: Manager, s: Stream, edge: u32) returns (putAside: bool)
    requires tcp.Valid() && s in tcp.streams
    modifies tcp, s
    ensures old(tcp.rtoNowIdx) == 0 ==> tcp.rtoNowIdx == 0
    ensures tcp.log == old(tcp.log) && tcp.room == old(tcp.room)
    ensures tcp.Valid() && Whole(s) == CloseTo(old(Whole(s)), edge)
    ensures putAside <==> !old(s.haveReset) && old(s.onControlList)
    ensures tcp.streams ==
      if old(s.haveReset) && old(s.state) != CLOSED then old(tcp.streams) - {s} else old(tcp.streams)
  {
    hide Manager.Valid, Whole, Requesting, FinNumbered, CarriedOut;
    PrepareClose(tcp, s, edge);
    putAside := CarryOut(tcp, s);
  }

  method PrepareClose(tcp: Manager, s: Stream, edge: u32)
    requires tcp.Valid() && s in tcp.streams
    modifies s`request, s`fss, tcp`timeoutList, tcp`timeoutListCnt, s`onTimeoutList
    ensures tcp.Valid()
    ensures Whole(s) ==
      FinNumbered(Requesting(old(Whole(s)), old(Whole(s)).view.request.(onCloseq := false)), edge)
  {
    hide Manager.Queues, Manager.Timers, Whole, Requesting, FinNumbered;
    ShowsAll(s);
    Request(s, s.request.(onCloseq := false));
    NumberFin(tcp, s, edge);
  }

  /** Lines 2259-2323. */
  method CarryOut(tcp: Manager, s: Stream) returns (putAside: bool)
    requires tcp.Valid() && s in tcp.streams
    modifies tcp`controlList, tcp`controlListCnt, tcp`sendList, tcp`sendListCnt, tcp`ackList, tcp`ackListCnt
    modifies tcp`rtoList, tcp`rtoListCnt, tcp`timewaitList, tcp`timewaitListCnt, tcp`timeoutList
    modifies tcp`timeoutListCnt, tcp`streams, s`state, s`closeReason, s`request, s`controlListWaiting
    modifies s`onControlList, s`onSendList, s`onAckList, s`onRtoIdx, s`onTimewaitList, s`onTimeoutList
    ensures tcp.Valid() && Whole(s) == CarriedOut(old(Whole(s)))
    ensures putAside <==> !s.haveReset && old(s.onControlList)
    ensures tcp.streams == if s.haveReset && old(s.state) != CLOSED then old(tcp.streams) - {s} else old(tcp.streams)
  {
    hide Manager.Queues, Manager.Timers, Whole, Requesting, EndedByReset, CloseStarted;
    ShowsAll(s);
    putAside := !s.haveReset && s.onControlList;
    if s.haveReset {
      CloseReset(tcp, s);
    } else if s.onControlList {
      Request(s, s.request.(onCloseqInt := true));
    } else {
      StartClose(tcp, s);
    }
  }

  /** Lines 2249-2257. */
  method NumberFin(tcp: Manager, s: Stream, edge: u32)
    requires tcp.Timers() && s in tcp.streams
    modifies s`fss, tcp`timeoutList, tcp`timeoutListCnt, s`onTimeoutList
    ensures tcp.Timers() && Whole(s) == FinNumbered(old(Whole(s)), edge)
  {
    hide Manager.Timers, Whole;
    ShowsNumbers(s);
    ShowsOwner(s);
    FinCommutes(Whole(s), if s.hasSndbuf then edge else s.sndNxt);
    SetFin(s, if s.hasSndbuf then edge else s.sndNxt);
    Unwatch(tcp, s);
  }

  lemma FinCommutes(c: Conn, fss: u32)
    ensures Unwatched(c.(view := c.view.(fss := fss))) == Unwatched(c).(view := c.view.(fss := fss))
    ensures Unwatched(c).view == c.view
  {}

  method Unwatch(tcp: Manager, s: Stream)
    requires tcp.Timers() && s in tcp.streams
    modifies tcp`timeoutList, tcp`timeoutListCnt, s`onTimeoutList
    ensures tcp.Timers() && Whole(s) == Unwatched(old(Whole(s)))
  {
    hide Manager.Timers, Whole;
    ShowsClock(s);
    if s.onTimeoutList {
      LeaveTimeouts(tcp, s);
    }
  }

  method SetFin(s: Stream, fss: u32)
    modifies s`fss
    ensures s.fss == fss && Whole(s) == old(Whole(s)).(view := old(Whole(s)).view.(fss := fss))
  {
    hide NumbersOf, LinksOf, ClockOf, InboxOf, EndingOf, OwnerOf;
    s.fss := fss;
  }

  /** Lines 2288-2323: the FIN goes out after everything else the stream waits to send. */
  method StartClose(tcp: Manager, s: Stream)
    requires tcp.Valid() && s in tcp.streams
    modifies s`state, s`controlListWaiting, tcp`controlList, tcp`controlListCnt, s`onControlList
    ensures tcp.Valid() && Whole(s) == CloseStarted(old(Whole(s)))
  {
    hide Manager.Queues, Manager.Timers, Whole, Moved, WaitingOn, Queued;
    Shows(s);
    ShowsLinks(s);
    if s.onSendList || s.onAckList {
      BeginClose(tcp, s);
      Wait(s);
    } else if s.state != CLOSED {
      BeginClose(tcp, s);
      WantControl(tcp, s);
    }
  }

  method Wait(s: Stream)
    modifies s`controlListWaiting
    ensures s.controlListWaiting && Whole(s) == WaitingOn(old(Whole(s)))
  {
    hide Look, NumbersOf, ClockOf, InboxOf, EndingOf, OwnerOf;
    s.controlListWaiting := true;
  }

  /** The application is done sending. */
  method BeginClose(tcp: Manager, s: Stream)
    requires tcp.Timers() && s in tcp.streams
    modifies s`state
    ensures tcp.Timers() && Whole(s) == Moved(old(Whole(s)), DoneSending(old(s.state)))
  {
    hide Manager.Timers, Whole;
    Shows(s);
    EarlyIsIdle(tcp, s);
    if s.state == ESTABLISHED {
      Enter(tcp, s, FIN_WAIT_1);
    } else if s.state == CLOSE_WAIT {
      Enter(tcp, s, LAST_ACK);
    }
  }

  /** A request to reset is taken up, unless something waits to be sent. */
  function Aborted(c: Conn): Conn {
    if c.ending.reset then EndedByReset(c)
    else if c.links.controlling || c.links.sending || c.links.acking || c.view.state == CLOSED then c
    else Queued(Over(c, ACTIVE_CLOSE))
  }

  function ResetTo(c: Conn): Conn {
    Aborted(Unwatched(c))
  }

  /** Lines 2329-2372 for one stream of the reset queue; true if it was put aside. */
  method ApiReset(tcp: Manager, s: Stream) returns (putAside: bool)
    requires tcp.Valid() && s in tcp.streams
    modifies tcp, s
    ensures old(tcp.rtoNowIdx) == 0 ==> tcp.rtoNowIdx == 0
    ensures tcp.log == old(tcp.log) && tcp.room == old(tcp.room)
    ensures tcp.Valid() && MayClose(old(Look(s)), Look(s)) && Whole(s) == ResetTo(old(Whole(s)))
    ensures putAside <==> !s.haveReset && (old(s.onControlList) || old(s.onSendList) || old(s.onAckList))
    ensures s.state == if putAside then old(s.state) else CLOSED
    ensures !putAside && !s.haveReset && old(s.state) != CLOSED ==> s.onControlList && s.closeReason == ACTIVE_CLOSE
    // the retransmission timer runs on
    ensures !s.haveReset ==> tcp.rtoList == old(tcp.rtoList) && tcp.rtoListCnt == old(tcp.rtoListCnt)
    ensures tcp.rtoNowTs == old(tcp.rtoNowTs) && tcp.rtoNowIdx == old(tcp.rtoNowIdx)
    ensures s.nrtx == old(s.nrtx) && s.haveReset == old(s.haveReset)
    ensures tcp.streams ==
      if s.haveReset && old(s.state) != CLOSED then old(tcp.streams) - {s} else old(tcp.streams)
  {
    hide Manager.Valid, Whole, Look, ResetTo, MayClose;
    ghost var c := Whole(s);
    ShowsAll(s);
    ResetRequestMeans(c);
    putAside := TakeResetRequest(tcp, s);
    ShowsAll(s);
  }

  lemma ResetRequestMeans(c: Conn)
    ensures var e := ResetTo(c);
      var aside := !c.ending.reset && (c.links.controlling || c.links.sending || c.links.acking);
      && MayClose(c.view, e.view) && e.ending.reset == c.ending.reset && e.clock.nrtx == c.clock.nrtx
      && e.view.state == (if aside then c.view.state else CLOSED)
      && (!aside && !c.ending.reset && c.view.state != CLOSED ==>
            e.links.controlling && e.ending.reason == ACTIVE_CLOSE)
  {}

  /** ... with the stream as a value. */
  method TakeResetRequest(tcp: Manager, s: Stream) returns (putAside: bool)
    requires tcp.Valid() && s in tcp.streams
    modifies tcp`controlList, tcp`controlListCnt, tcp`sendList, tcp`sendListCnt, tcp`ackList, tcp`ackListCnt
    modifies tcp`rtoList, tcp`rtoListCnt, tcp`timewaitList, tcp`timewaitListCnt, tcp`timeoutList
    modifies tcp`timeoutListCnt, tcp`streams, s`state, s`closeReason
    modifies s`onControlList, s`onSendList, s`onAckList, s`onRtoIdx, s`onTimewaitList, s`onTimeoutList
    ensures tcp.Valid() && Whole(s) == ResetTo(old(Whole(s)))
    ensures putAside <==> !old(s.haveReset) && (old(s.onControlList) || old(s.onSendList) || old(s.onAckList))
    ensures !old(s.haveReset) ==> tcp.rtoList == old(tcp.rtoList) && tcp.rtoListCnt == old(tcp.rtoListCnt)
    ensures tcp.streams ==
      if old(s.haveReset) && old(s.state) != CLOSED then old(tcp.streams) - {s} else old(tcp.streams)
  {
    hide Manager.Queues, Manager.Timers, Whole, Unwatched, Aborted;
    Unwatch(tcp, s);
    putAside := Abort(tcp, s);
  }

  /** Lines 2335-2371. */
  method Abort(tcp: Manager, s: Stream) returns (putAside: bool)
    requires tcp.Valid() && s in tcp.streams
    modifies tcp`controlList, tcp`controlListCnt, tcp`sendList, tcp`sendListCnt, tcp`ackList, tcp`ackListCnt
    modifies tcp`rtoList, tcp`rtoListCnt, tcp`timewaitList, tcp`timewaitListCnt, tcp`timeoutList
    modifies tcp`timeoutListCnt, tcp`streams, s`state, s`closeReason
    modifies s`onControlList, s`onSendList, s`onAckList, s`onRtoIdx, s`onTimewaitList, s`onTimeoutList
    ensures tcp.Valid() && Whole(s) == Aborted(old(Whole(s)))
    ensures putAside <==> !old(s.haveReset) && (old(s.onControlList) || old(s.onSendList) || old(s.onAckList))
    ensures !old(s.haveReset) ==> tcp.rtoList == old(tcp.rtoList) && tcp.rtoListCnt == old(tcp.rtoListCnt)
    ensures tcp.streams ==
      if old(s.haveReset) && old(s.state) != CLOSED then old(tcp.streams) - {s} else old(tcp.streams)
  {
    hide Manager.Queues, Manager.Timers, Whole, EndedByReset, Queued, Over;
    ShowsAll(s);
    putAside := false;
    if s.haveReset {
      CloseReset(tcp, s);
    } else if s.onControlList || s.onSendList || s.onAckList {
      putAside := true;
    } else if s.state != CLOSED {
      Close(tcp, s, ACTIVE_CLOSE);
      WantControl(tcp, s);
    }
  }

  /** Lines 2259-2273 and 2335-2347: the peer has reset the connection already. */
  method CloseReset(tcp: Manager, s: Stream)
    requires tcp.Valid() && s in tcp.streams
    modifies tcp`controlList, tcp`controlListCnt, tcp`sendList, tcp`sendListCnt, tcp`ackList, tcp`ackListCnt
    modifies tcp`rtoList, tcp`rtoListCnt, tcp`timewaitList, tcp`timewaitListCnt, tcp`timeoutList
    modifies tcp`timeoutListCnt, tcp`streams, s`state, s`closeReason
    modifies s`onControlList, s`onSendList, s`onAckList, s`onRtoIdx, s`onTimewaitList, s`onTimeoutList
    ensures tcp.Valid() && Whole(s) == EndedByReset(old(Whole(s)))
    ensures tcp.streams == if old(s.state) != CLOSED then old(tcp.streams) - {s} else old(tcp.streams)
  {
    hide Manager.Valid, Whole, Over, Off;
    Shows(s);
    if s.state != CLOSED {
      End(tcp, s, RESET);
    }
  }
}
