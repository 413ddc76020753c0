/** The life of a connection: the arcs of the state diagram as the code has them, and what the
    events other than segments may do to a stream. */
module Lifecycle {
  import opened SeqArith
  import opened TcpState
  import opened SchedLists

  /** What the statements about a connection are about: its state, whether our FIN has been sent
      and acknowledged and the peer's consumed, the number of our FIN and the number awaited, and
      the application's request to close. */
  datatype View = View(state: State, finSent: bool, finAcked: bool, peerFin: bool, fss: u32, rcvNxt: u32,
    request: CloseRequest)

  ghost function Look(s: Stream): View
    reads s`state, s`isFinSent, s`finAcked, s`peerFin, s`fss, s`rcvNxt, s`request
  {
    View(s.state, s.isFinSent, s.finAcked, s.peerFin, s.fss, s.rcvNxt, s.request)
  }

  /** Where `snd_nxt` and `snd_una` are. */
  datatype Numbers = Numbers(nxt: u32, una: u32)

  /** The lists on which the stream waits to send, whether a control packet is postponed, and the
      acknowledgements owed. */
  datatype Links = Links(controlling: bool, sending: bool, acking: bool, waiting: bool, ackCnt: nat, isWack: bool)

  /** Whether the retransmission timer runs and how often it has run out, whether the stream lingers in
      TIME_WAIT and until when, whether it is watched for inactivity, and when it was last active. */
  datatype Clock = Clock(timed: bool, nrtx: nat, lingers: bool, expire: u32, watched: bool, active: u32)

  /** Whether there is a receive buffer, and the end of the bytes in it that can be read. */
  datatype Inbox = Inbox(present: bool, edge: u32)

  /** Why the connection ended, and whether the peer has sent a reset. */
  datatype Ending = Ending(reason: CloseReason, reset: bool)

  /** What the application has given to the stream. */
  datatype Owner = Owner(socket: bool, socketMap: bool, sndbuf: bool)

  /** A stream as a value. */
  datatype Conn = Conn(view: View, num: Numbers, links: Links, clock: Clock, inbox: Inbox, ending: Ending,
    owner: Owner, iss: u32, irs: u32)

  ghost function NumbersOf(s: Stream): Numbers
    reads s`sndNxt, s`sndUna
  {
    Numbers(s.sndNxt, s.sndUna)
  }

  ghost function LinksOf(s: Stream): Links
    reads s`onControlList, s`onSendList, s`onAckList, s`controlListWaiting, s`ackCnt, s`isWack
  {
    Links(s.onControlList, s.onSendList, s.onAckList, s.controlListWaiting, s.ackCnt, s.isWack)
  }

  ghost function ClockOf(s: Stream): Clock
    reads s`onRtoIdx, s`nrtx, s`onTimewaitList, s`tsTwExpire, s`onTimeoutList, s`lastActiveTs
  {
    Clock(s.onRtoIdx >= 0, s.nrtx, s.onTimewaitList, s.tsTwExpire, s.onTimeoutList, s.lastActiveTs)
  }

  ghost function InboxOf(s: Stream): Inbox
    reads s`hasRecvbuf, s`recvEdge
  {
    Inbox(s.hasRecvbuf, s.recvEdge)
  }

  ghost function EndingOf(s: Stream): Ending
    reads s`closeReason, s`haveReset
  {
    Ending(s.closeReason, s.haveReset)
  }

  ghost function OwnerOf(s: Stream): Owner
    reads s`hasSocket, s`hasSocketMap, s`hasSndbuf
  {
    Owner(s.hasSocket, s.hasSocketMap, s.hasSndbuf)
  }

  ghost function Whole(s: Stream): Conn
    reads s`state, s`isFinSent, s`finAcked, s`peerFin, s`fss, s`rcvNxt, s`request, s`sndNxt, s`sndUna
    reads s`onControlList, s`onSendList, s`onAckList, s`controlListWaiting, s`ackCnt, s`isWack
    reads s`onRtoIdx, s`nrtx, s`onTimewaitList, s`tsTwExpire, s`onTimeoutList, s`lastActiveTs
    reads s`hasRecvbuf, s`recvEdge, s`closeReason, s`haveReset, s`hasSocket, s`hasSocketMap, s`hasSndbuf
  {
    Conn(Look(s), NumbersOf(s), LinksOf(s), ClockOf(s), InboxOf(s), EndingOf(s), OwnerOf(s), s.iss, s.irs)
  }

  /** Several streams at one moment. */
  ghost function Wholes(streams: set<Stream>): (m: map<Stream, Conn>)
    reads streams
    ensures m.Keys == streams
  {
    map s | s in streams :: Whole(s)
  }

  lemma Shows(s: Stream)
    ensures var v := Whole(s).view;
      v == Look(s) && v.state == s.state && v.finSent == s.isFinSent && v.fss == s.fss && v.rcvNxt == s.rcvNxt
  {}

  lemma ShowsNumbers(s: Stream)
    ensures Whole(s).num == Numbers(s.sndNxt, s.sndUna) && Whole(s).iss == s.iss && Whole(s).irs == s.irs
  {}

  lemma ShowsLinks(s: Stream)
    ensures Whole(s).links ==
      Links(s.onControlList, s.onSendList, s.onAckList, s.controlListWaiting, s.ackCnt, s.isWack)
  {}

  lemma ShowsOwner(s: Stream)
    ensures Whole(s).owner == Owner(s.hasSocket, s.hasSocketMap, s.hasSndbuf)
  {}

  lemma ShowsClock(s: Stream)
    ensures Whole(s).clock ==
      Clock(s.onRtoIdx >= 0, s.nrtx, s.onTimewaitList, s.tsTwExpire, s.onTimeoutList, s.lastActiveTs)
  {}

  lemma ShowsAll(s: Stream)
    ensures var c := Whole(s);
      && c.view == Look(s) && c.iss == s.iss && c.irs == s.irs
      && c.view == View(s.state, s.isFinSent, s.finAcked, s.peerFin, s.fss, s.rcvNxt, s.request)
      && c.num == Numbers(s.sndNxt, s.sndUna)
      && c.links == Links(s.onControlList, s.onSendList, s.onAckList, s.controlListWaiting, s.ackCnt, s.isWack)
      && c.clock == Clock(s.onRtoIdx >= 0, s.nrtx, s.onTimewaitList, s.tsTwExpire, s.onTimeoutList, s.lastActiveTs)
      && c.ending == Ending(s.closeReason, s.haveReset)
      && c.owner == Owner(s.hasSocket, s.hasSocketMap, s.hasSndbuf)
  {}

  lemma EachNumber(streams: set<Stream>)
    ensures forall s :: s in streams ==> Whole(s).num.nxt == s.sndNxt
  {}

  lemma EachShows(streams: set<Stream>)
    ensures forall s :: s in streams ==> Whole(s).view == Look(s)
  {}

  lemma ShowsTimed(s: Stream)
    ensures Whole(s).clock.timed == (s.onRtoIdx >= 0) && Whole(s).clock.nrtx == s.nrtx
  {}

  lemma ShowsReason(s: Stream)
    ensures Whole(s).ending == Ending(s.closeReason, s.haveReset)
  {}

  lemma EachState(streams: set<Stream>)
    ensures forall s :: s in streams ==> Whole(s).view.state == s.state
  {}

  /** A control packet is to be sent. */
  function Queued(c: Conn): Conn {
    c.(links := c.links.(controlling := true))
  }

  function Unqueued(c: Conn): Conn {
    c.(links := c.links.(controlling := false))
  }

  /** The stream has no acknowledgement to send. */
  function Quiet(c: Conn): Conn {
    c.(links := c.links.(acking := false))
  }

  /** Data is to be sent. */
  function Loaded(c: Conn): Conn {
    c.(links := c.links.(sending := true))
  }

  /** A postponed control packet is queued unless the stream still waits to send something else. */
  function Resumed(c: Conn, busy: bool): Conn {
    if c.links.waiting && !busy then c.(links := c.links.(waiting := false, controlling := true)) else c
  }

  datatype AckOpt = NOW | AGGREGATE | WACK

  /** One acknowledgement more is owed, at least one, or a window probe. The counter has six bits. */
  function Owing(c: Conn, opt: AckOpt): Conn {
    c.(links := c.links.(acking := true, isWack := c.links.isWack || opt == WACK, ackCnt :=
      if opt == NOW then (c.links.ackCnt + 1) % 64
      else if opt == AGGREGATE && c.links.ackCnt == 0 then 1 else c.links.ackCnt))
  }

  function Moved(c: Conn, to: State): Conn {
    c.(view := c.view.(state := to))
  }

  /** The connection is over. */
  function Over(c: Conn, reason: CloseReason): Conn {
    c.(view := c.view.(state := CLOSED), ending := c.ending.(reason := reason))
  }

  /** The stream leaves every list, as it does when it is destroyed. */
  function Off(c: Conn): Conn {
    c.(links := c.links.(controlling := false, sending := false, acking := false),
      clock := c.clock.(timed := false, lingers := false, watched := false))
  }

  /** The retransmission timer runs. */
  function Timed(c: Conn): Conn {
    c.(clock := c.clock.(timed := true))
  }

  function Stopped(c: Conn): Conn {
    c.(clock := c.clock.(timed := false))
  }

  /** The retransmission timer is set anew, or stops because everything is acknowledged. */
  function Rewinding(c: Conn): Conn {
    c.(clock := c.clock.(nrtx := 0, timed := SeqGt(c.num.nxt, c.num.una)))
  }

  /** The arcs of the state diagram (section 3.3.2 of RFC 9293) that the code can take within one
      event. Any state can be closed; line 1296 of src/user_tcp.c makes CLOSED the successor of
      FIN_WAIT_1 in a case where the diagram has TIME_WAIT. */
  predicate Arc(a: State, b: State) {
    || a == b || b == CLOSED
    || match a
       case LISTEN => b == SYN_RCVD
       case SYN_SENT => b == SYN_RCVD || b == ESTABLISHED || b == CLOSE_WAIT
       case SYN_RCVD => b == ESTABLISHED || b == CLOSE_WAIT
       case ESTABLISHED => b == CLOSE_WAIT || b == FIN_WAIT_1
       case CLOSE_WAIT => b == LAST_ACK
       case FIN_WAIT_1 => b == FIN_WAIT_2 || b == CLOSING
       case FIN_WAIT_2 => b == TIME_WAIT
       case CLOSING => b == TIME_WAIT
       case LAST_ACK => false
       case TIME_WAIT => false
       case CLOSED => false
  }

  /** A timer or a reset by the application does nothing to a connection, or closes it. */
  ghost predicate MayClose(v: View, w: View) {
    w == v || w == v.(state := CLOSED)
  }

  /** The states that a connection enters once its application has begun to close it. */
  predicate Closing(s: State) {
    s == FIN_WAIT_1 || s == LAST_ACK || s == FIN_WAIT_2 || s == CLOSING || s == TIME_WAIT
  }

  /** The states in which a control packet carries our FIN. */
  predicate FinState(s: State) {
    s == FIN_WAIT_1 || s == LAST_ACK || s == CLOSING
  }

  /** A control packet does nothing to a connection, or is its FIN; `out` says that one went out. */
  ghost predicate MaySendFin(v: View, w: View, out: bool) {
    w == v || (w == v.(finSent := true) && FinState(v.state) && out)
  }

  /** ... as user_close_stream_socket leaves its flags (lines 142-180 of src/user_api.c). */
  function Asked(state: State, r: CloseRequest): CloseRequest {
    r.(closed := true, onCloseq := r.onCloseq || state == ESTABLISHED || state == CLOSE_WAIT)
  }

  /** The application asks for a close, which happens once: the request is queued if the connection
      is established in this direction. */
  ghost predicate AsksClose(v: View, w: View) {
    if v.request.closed then w == v
    else w == v.(request := Asked(v.state, v.request))
  }

  /** A queued request is taken up: the FIN gets its number, and the state says that it is due, unless
      the request is put aside. */
  ghost predicate BeginsClose(v: View, w: View) {
    && w == v.(state := w.state, fss := w.fss, request := w.request)
    && w.request == v.request.(onCloseq := false, onCloseqInt := w.request.onCloseqInt)
    && (v.request.onCloseqInt ==> w.request.onCloseqInt)
    && (w.request.onCloseqInt && !v.request.onCloseqInt ==> w.state == v.state)
    && (w.state == v.state || w.state == CLOSED || (v.state == ESTABLISHED && w.state == FIN_WAIT_1) ||
      (v.state == CLOSE_WAIT && w.state == LAST_ACK))
  }

  /** The views of several streams at one moment. */
  ghost function Views(streams: set<Stream>): (m: map<Stream, View>)
    reads streams`state, streams`isFinSent, streams`finAcked, streams`peerFin, streams`fss, streams`rcvNxt
    reads streams`request
    ensures m.Keys == streams
  {
    map s | s in streams :: Look(s)
  }
}
