/** Control packets: which one is sent in which state, and the pass over the control list
    (src/user_tcp.c:2534-2668). */
module ControlPasses {
  import opened Common
  import opened SeqArith
  import opened TcpState
  import opened SchedLists
  import opened Lifecycle
  import opened Sending

  /** The flags of the control packet that a stream sends in its state. A FIN is repeated in CLOSING
      as long as it is the next thing to be sent. */
  function ReplyFlags(c: Conn): Flags {
    match c.view.state
    case SYN_SENT => SYN
    case SYN_RCVD => SYN_ACK
    case LAST_ACK => FIN_ACK
    case FIN_WAIT_1 => FIN_ACK
    case CLOSING => if !c.view.finSent || c.num.nxt == c.view.fss then FIN_ACK else ACK
    case CLOSED => RST
    case _ => ACK
  }

  /** A SYN is always sent with the initial number. */
  function Rewound(c: Conn): Conn {
    if c.view.state == SYN_RCVD then c.(num := c.num.(nxt := c.iss)) else c
  }

  /** The control packet; in LISTEN there is none. */
  function Reply(s: Stream, c: Conn): seq<Wire> {
    if c.view.state == LISTEN then [] else [Sent(s, Rewound(c), ReplyFlags(c), 0)]
  }

  /** The stream after it; a closed one is gone. */
  function Replied(c: Conn, ts: u32): Conn {
    if c.view.state == LISTEN then c
    else if c.view.state == CLOSED then Off(Emitted(c, RST, 0, ts))
    else Emitted(Rewound(c), ReplyFlags(c), 0, ts)
  }

  /** A stream may not send its FIN or reset before its other lists are drained. */
  predicate Stuck(c: Conn) {
    (c.view.state == LAST_ACK || c.view.state == FIN_WAIT_1 || c.view.state == CLOSED) &&
    (c.links.sending || c.links.acking)
  }

  /** The control packet cannot be sent now. */
  predicate Blocked(c: Conn, room: nat) {
    c.view.state != LISTEN && (room == 0 || Stuck(c))
  }

  /** What the peer may expect of a control packet, by section 3.10 of RFC 9293: a SYN has the initial
      number, our FIN the one behind the last byte; everything but the first SYN and a reset
      acknowledges all that was received in order; only a closed connection sends a reset. */
  predicate Proper(c: Conn, w: Wire) {
    && w.len == 0 && !w.flags.cwr
    && (w.flags.syn <==> c.view.state == SYN_SENT || c.view.state == SYN_RCVD)
    && (w.flags.syn && w.flags.ack ==> w.seqNum == c.iss)
    && (w.flags.fin ==> w.seqNum == c.view.fss && FinState(c.view.state))
    && (c.view.state == FIN_WAIT_1 || c.view.state == LAST_ACK ==> w.flags.fin)
    && (c.view.state == CLOSING ==> (w.flags.fin <==> !c.view.finSent || c.num.nxt == c.view.fss))
    && (w.flags.ack <==> c.view.state != SYN_SENT && c.view.state != CLOSED)
    && (w.flags.ack ==> w.ackSeq == c.view.rcvNxt)
    && (w.flags.rst <==> c.view.state == CLOSED)
  }

  /** A stream sends one such packet, and nothing in LISTEN; afterwards its FIN counts as sent if it is
      in a state that has one. */
  lemma RepliesAreProper(s: Stream, c: Conn, ts: u32)
    ensures |Reply(s, c)| == if c.view.state == LISTEN then 0 else 1
    ensures forall w :: w in Reply(s, c) ==> w.stream == s && Proper(c, w)
    ensures Replied(c, ts).view == if FinState(c.view.state) then c.view.(finSent := true) else c.view
  {}

  /** user_tcp_send_controlpkt: what goes out in which state. A closed stream is destroyed once
      its reset is out. */
  method SendControlpkt(tcp: Manager, s: Stream, curTs: u32) returns (r: int)
    requires tcp.Valid() && s in tcp.streams && !s.onControlList
    modifies tcp, s
    ensures old(tcp.rtoNowIdx) == 0 ==> tcp.rtoNowIdx == 0
    ensures tcp.Valid() && tcp.controlList == old(tcp.controlList) && s.state == old(s.state)
    ensures r < 0 <==> Blocked(old(Whole(s)), old(tcp.room))
    ensures tcp.log == old(tcp.log) + if r < 0 then [] else Reply(s, old(Whole(s)))
    ensures Whole(s) == if r < 0 then Rewound(old(Whole(s))) else Replied(old(Whole(s)), curTs)
    ensures tcp.streams == if r >= 0 && s.state == CLOSED then old(tcp.streams) - {s} else old(tcp.streams)
    ensures s in tcp.streams ==> !s.onControlList
    ensures MaySendFin(old(Look(s)), Look(s), tcp.room < old(tcp.room)) && (r < 0 ==> Look(s) == old(Look(s)))
    ensures r >= 0 ==> Answered(s, tcp.streams)
    ensures tcp.room == old(tcp.room) - if r >= 0 && s.state != LISTEN then 1 else 0
  {
    hide Manager.Queues, Manager.Timers, Wrap, Answered, Whole, Reply, Replied, Look, MaySendFin, Blocked, Rewound;
    ghost var c := Whole(s);
    Shows(s);
    if s.state == CLOSED {
      r := SendReset(tcp, s, curTs);
    } else {
      r := SendState(tcp, s, curTs);
    }
    Shows(s);
    ReplyMaySendFin(s, c, curTs);
    ReplyOf(s, c, curTs);
    if r >= 0 {
      RepliedAnswers(s, tcp.streams, c, curTs);
    }
  }

  /** Lines 2542-2607. */
  method SendState(tcp: Manager, s: Stream, curTs: u32) returns (r: int)
    requires tcp.Valid() && s in tcp.streams && s.state != CLOSED
    modifies tcp`room, tcp`log, tcp`timeoutList, tcp`rtoList, tcp`rtoListCnt, tcp`rtoNowIdx, tcp`rtoNowTs
    modifies s`isFinSent, s`lastActiveTs, s`sndNxt, s`tsRto, s`onRtoIdx
    ensures old(tcp.rtoNowIdx) == 0 ==> tcp.rtoNowIdx == 0
    ensures tcp.Valid()
    ensures r < 0 <==> Blocked(old(Whole(s)), old(tcp.room))
    ensures tcp.log == old(tcp.log) + if r < 0 then [] else Reply(s, old(Whole(s)))
    ensures Whole(s) == if r < 0 then Rewound(old(Whole(s))) else Replied(old(Whole(s)), curTs)
    ensures tcp.room == old(tcp.room) - if r >= 0 && s.state != LISTEN then 1 else 0
  {
    hide Manager.Queues, Manager.Timers, Whole, Look, Emitted, Reply, Replied, Sent, Rewound;
    r := 0;
    DoneIsIdle(tcp, s);
    Shows(s);
    ShowsNumbers(s);
    ShowsLinks(s);
    ReplyOf(s, Whole(s), curTs);
    if s.state == SYN_SENT {
      r := SendSyn(tcp, s, curTs, false);
    } else if s.state == SYN_RCVD {
      Rewind(s);
      r := SendSyn(tcp, s, curTs, true);
    } else if s.state == LAST_ACK || s.state == FIN_WAIT_1 {
      r := SendFin(tcp, s, curTs);
    } else if s.state != LISTEN {
      r := SendAck(tcp, s, curTs);
    }
  }

  /** Lines 2551-2558 and 2581-2607: in CLOSING the FIN may have to be repeated. */
  method SendAck(tcp: Manager, s: Stream, curTs: u32) returns (r: int)
    requires tcp.Valid() && s in tcp.streams && (s.state == CLOSING ==> !s.onTimewaitList)
    modifies tcp`room, tcp`log, tcp`timeoutList, tcp`rtoList, tcp`rtoListCnt, tcp`rtoNowIdx, tcp`rtoNowTs
    modifies s`isFinSent, s`lastActiveTs, s`sndNxt, s`tsRto, s`onRtoIdx
    ensures old(tcp.rtoNowIdx) == 0 ==> tcp.rtoNowIdx == 0
    ensures tcp.Valid() && (r < 0 <==> old(tcp.room) == 0)
    ensures var f := if s.state == CLOSING && (!old(s.isFinSent) || old(s.sndNxt) == s.fss) then FIN_ACK else ACK;
      && tcp.log == (old(tcp.log) + if r < 0 then [] else [Sent(s, old(Whole(s)), f, 0)])
      && Whole(s) == if r < 0 then old(Whole(s)) else Emitted(old(Whole(s)), f, 0, curTs)
    ensures tcp.room == old(tcp.room) - if r < 0 then 0 else 1
  {
    hide Manager.Queues, Manager.Timers, Whole, Emitted, Sent;
    if s.state == CLOSING {
      r := SendTcppkt(tcp, s, curTs, if !s.isFinSent || s.sndNxt == s.fss then FIN_ACK else ACK, 0);
    } else {
      r := SendTcppkt(tcp, s, curTs, ACK, 0);
    }
  }

  lemma ReplyOf(s: Stream, c: Conn, ts: u32)
    ensures c.view.state == LISTEN ==> Reply(s, c) == [] && Replied(c, ts) == c
    ensures c.view.state == CLOSED ==>
      Reply(s, c) == [Sent(s, c, RST, 0)] && Replied(c, ts) == Off(Emitted(c, RST, 0, ts))
    ensures c.view.state != LISTEN && c.view.state != CLOSED ==>
      Reply(s, c) == [Sent(s, Rewound(c), ReplyFlags(c), 0)] &&
      Replied(c, ts) == Emitted(Rewound(c), ReplyFlags(c), 0, ts)
    ensures c.view.state != SYN_RCVD ==> Rewound(c) == c
    ensures Rewound(c).links == c.links
  {}

  lemma RepliedAnswers(s: Stream, streams: set<Stream>, c: Conn, ts: u32)
    requires Whole(s) == Replied(c, ts) && (c.view.state == CLOSED ==> s !in streams)
    ensures Answered(s, streams)
  {
    Shows(s);
    ShowsNumbers(s);
    assert Whole(s).clock.timed == (s.onRtoIdx >= 0);
    hide Whole, Look;
  }

  /** Line 2548. */
  method Rewind(s: Stream)
    requires s.state == SYN_RCVD
    modifies s`sndNxt
    ensures s.sndNxt == s.iss && Whole(s) == Rewound(old(Whole(s)))
  {
    s.sndNxt := s.iss;
  }

  lemma ReplyMaySendFin(s: Stream, c: Conn, ts: u32)
    ensures MaySendFin(c.view, Replied(c, ts).view, |Reply(s, c)| > 0) && Rewound(c).view == c.view
    ensures MaySendFin(c.view, c.view, false)
  {}

  /** Lines 2542-2550. */
  method SendSyn(tcp: Manager, s: Stream, curTs: u32, ack: bool) returns (r: int)
    requires tcp.Valid() && s in tcp.streams && !s.onTimewaitList
    requires if ack then s.state == SYN_RCVD && s.sndNxt == s.iss else s.state == SYN_SENT
    modifies tcp`room, tcp`log, tcp`timeoutList, tcp`rtoList, tcp`rtoListCnt, tcp`rtoNowIdx, tcp`rtoNowTs
    modifies s`isFinSent, s`lastActiveTs, s`sndNxt, s`tsRto, s`onRtoIdx
    ensures old(tcp.rtoNowIdx) == 0 ==> tcp.rtoNowIdx == 0
    ensures tcp.Valid() && s.isFinSent == old(s.isFinSent)
    ensures r >= 0 <==> old(tcp.room) > 0
    ensures tcp.log == old(tcp.log) +
      if r < 0 then [] else [Sent(s, old(Whole(s)), if ack then SYN_ACK else SYN, 0)]
    ensures Whole(s) ==
      if r < 0 then old(Whole(s)) else Emitted(old(Whole(s)), if ack then SYN_ACK else SYN, 0, curTs)
    ensures if r >= 0 then Answered(s, tcp.streams) else tcp.room == 0
    ensures tcp.room == old(tcp.room) - if r >= 0 then 1 else 0
  {
    hide Manager.Queues, Manager.Timers, Whole;
    r := SendTcppkt(tcp, s, curTs, if ack then SYN_ACK else SYN, 0);
  }

  /** Lines 2559-2580: the FIN is held back until nothing else is to be sent. */
  method SendFin(tcp: Manager, s: Stream, curTs: u32) returns (r: int)
    requires tcp.Valid() && s in tcp.streams && !s.onTimewaitList && (s.state == LAST_ACK || s.state == FIN_WAIT_1)
    modifies tcp`room, tcp`log, tcp`timeoutList, tcp`rtoList, tcp`rtoListCnt, tcp`rtoNowIdx, tcp`rtoNowTs
    modifies s`isFinSent, s`lastActiveTs, s`sndNxt, s`tsRto, s`onRtoIdx
    ensures old(tcp.rtoNowIdx) == 0 ==> tcp.rtoNowIdx == 0
    ensures tcp.Valid() && s.isFinSent == (old(s.isFinSent) || r >= 0)
    ensures r >= 0 <==> old(tcp.room) > 0 && !s.onSendList && !s.onAckList
    ensures tcp.log == old(tcp.log) + if r < 0 then [] else [Sent(s, old(Whole(s)), FIN_ACK, 0)]
    ensures Whole(s) == if r < 0 then old(Whole(s)) else Emitted(old(Whole(s)), FIN_ACK, 0, curTs)
    ensures r >= 0 ==> Answered(s, tcp.streams)
    ensures tcp.room == old(tcp.room) - if r >= 0 then 1 else 0
  {
    hide Manager.Queues, Manager.Timers, Wrap, Whole;
    if s.onSendList || s.onAckList {
      return -1;
    }
    r := SendTcppkt(tcp, s, curTs, FIN_ACK, 0);
  }

  /** Lines 2608-2622: a reset ends the life of the stream. */
  method SendReset(tcp: Manager, s: Stream, curTs: u32) returns (r: int)
    requires tcp.Valid() && s in tcp.streams && !s.onControlList && s.state == CLOSED
    modifies tcp, s
    ensures old(tcp.rtoNowIdx) == 0 ==> tcp.rtoNowIdx == 0
    ensures tcp.Valid() && tcp.controlList == old(tcp.controlList) && (s in tcp.streams ==> !s.onControlList)
    ensures s.state == CLOSED
    ensures r < 0 <==> Blocked(old(Whole(s)), old(tcp.room))
    ensures tcp.log == old(tcp.log) + if r < 0 then [] else Reply(s, old(Whole(s)))
    ensures Whole(s) == if r < 0 then old(Whole(s)) else Replied(old(Whole(s)), curTs)
    ensures tcp.streams == if r >= 0 then old(tcp.streams) - {s} else old(tcp.streams)
    ensures tcp.room == old(tcp.room) - if r >= 0 then 1 else 0
  {
    hide Manager.Valid, Whole, Look, Off, Emitted, Sent, Reply, Replied, Without;
    Shows(s);
    ShowsLinks(s);
    ReplyOf(s, Whole(s), curTs);
    if s.onSendList || s.onAckList {
      return -1;
    }
    r := LastPacket(tcp, s, curTs);
  }

  /** Lines 2616-2620. */
  method LastPacket(tcp: Manager, s: Stream, curTs: u32) returns (r: int)
    requires tcp.Valid() && s in tcp.streams && !s.onControlList
    modifies tcp, s
    ensures old(tcp.rtoNowIdx) == 0 ==> tcp.rtoNowIdx == 0
    ensures tcp.Valid() && tcp.controlList == old(tcp.controlList) && s.state == old(s.state) && !s.onControlList
    ensures (r < 0 <==> old(tcp.room) == 0) && tcp.room == old(tcp.room) - if r < 0 then 0 else 1
    ensures tcp.log == old(tcp.log) + if r < 0 then [] else [Sent(s, old(Whole(s)), RST, 0)]
    ensures Whole(s) == if r < 0 then old(Whole(s)) else Off(Emitted(old(Whole(s)), RST, 0, curTs))
    ensures tcp.streams == if r < 0 then old(tcp.streams) else old(tcp.streams) - {s}
  {
    hide Manager.Valid, Whole, Off, Emitted, Sent, Without, Look;
    r := SendBare(tcp, s, curTs);
    if r >= 0 {
      Drop(tcp, s);
    }
  }

  /** A packet without data, FIN or acknowledgement leaves the stream as it is. */
  method SendBare(tcp: Manager, s: Stream, curTs: u32) returns (r: int)
    requires tcp.Valid() && s in tcp.streams
    modifies tcp`room, tcp`log, tcp`timeoutList, tcp`rtoList, tcp`rtoListCnt, tcp`rtoNowIdx, tcp`rtoNowTs
    modifies s`isFinSent, s`lastActiveTs, s`sndNxt, s`tsRto, s`onRtoIdx
    ensures old(tcp.rtoNowIdx) == 0 ==> tcp.rtoNowIdx == 0
    ensures tcp.Valid() && Look(s) == old(Look(s))
    ensures tcp.log == old(tcp.log) + if r < 0 then [] else [Sent(s, old(Whole(s)), RST, 0)]
    ensures Whole(s) == if r < 0 then old(Whole(s)) else Emitted(old(Whole(s)), RST, 0, curTs)
    ensures r == (if old(tcp.room) == 0 then -2 else 0) && tcp.room == old(tcp.room) - if r >= 0 then 1 else 0
  {
    hide Manager.Queues, Manager.Timers, Wrap, Whole;
    r := SendTcppkt(tcp, s, curTs, RST, 0);
  }

  /** What has happened to a stream whose control packet is out: the FIN of one that is closing
      has been sent, a handshake or closing stream has its retransmission timer, and a closed one
      is gone. */
  ghost predicate Answered(s: Stream, streams: set<Stream>)
    reads s
  {
    && (s.state == FIN_WAIT_1 || s.state == LAST_ACK ==> s.isFinSent)
    && (s.state == SYN_RCVD ==> s.sndNxt == Wrap(s.iss + 1))
    && (s.state == SYN_SENT || s.state == SYN_RCVD || s.state == FIN_WAIT_1 || s.state == LAST_ACK ==> s.onRtoIdx >= 0)
    && (s.state == CLOSED ==> s !in streams)
  }

  /** One stream of the control list, which is its first. */
  method WriteFirst(tcp: Manager, s: Stream, curTs: u32) returns (r: int)
    requires tcp.Valid() && tcp.controlList != [] && s == tcp.controlList[0]
    modifies tcp, s
    ensures old(tcp.rtoNowIdx) == 0 ==> tcp.rtoNowIdx == 0
    ensures tcp.Valid()
    ensures MaySendFin(old(Look(s)), Look(s), tcp.room < old(tcp.room)) && (r < 0 ==> Look(s) == old(Look(s)))
    ensures r < 0 <==> Blocked(old(Whole(s)), old(tcp.room))
    ensures tcp.log == old(tcp.log) + if r < 0 then [] else Reply(s, old(Whole(s)))
    ensures Whole(s) == if r < 0 then Rewound(old(Whole(s))) else Served(old(Whole(s)), curTs)
    ensures tcp.streams == if r >= 0 && s.state == CLOSED then old(tcp.streams) - {s} else old(tcp.streams)
    ensures s.state == old(s.state) && tcp.room == old(tcp.room) - if r < 0 then 0 else |Reply(s, old(Whole(s)))|
    ensures tcp.controlList == if r < 0 then old(tcp.controlList) else old(tcp.controlList)[1..]
    ensures r >= 0 ==> Answered(s, tcp.streams)
  {
    hide Manager.ControlOk, Manager.SendOk, Manager.AckOk, Manager.Timers;
    hide Look, Replied, Reply, Blocked, Rewound, Whole, Served;
    ghost var c := Whole(s);
    FirstIsQueued(tcp);
    Pop(tcp, s);
    Unmarked(s, c, curTs, tcp.room);
    Shows(s);
    RepliesAreProper(s, Unqueued(c), curTs);
    r := SendControlpkt(tcp, s, curTs);
    if r < 0 {
      PutBack(tcp, s);
    }
  }

  method Pop(tcp: Manager, s: Stream)
    requires tcp.ControlOk() && tcp.controlList != [] && s == tcp.controlList[0]
    modifies tcp`controlList, tcp`controlListCnt, s`onControlList
    ensures tcp.ControlOk() && tcp.controlList == old(tcp.controlList)[1..] && !s.onControlList
    ensures Whole(s) == Unqueued(old(Whole(s))) && old(Whole(s)).links.controlling
  {
    hide Manager.ControlOk, Look, NumbersOf, ClockOf, InboxOf, EndingOf, OwnerOf;
    FirstIsQueued(tcp);
    tcp.PopControlList(s);
  }

  method PutBack(tcp: Manager, s: Stream)
    requires tcp.ControlOk() && s in tcp.streams && !s.onControlList
    modifies tcp`controlList, tcp`controlListCnt, s`onControlList
    ensures tcp.ControlOk() && tcp.controlList == [s] + old(tcp.controlList) && s.onControlList
    ensures Whole(s) == Queued(old(Whole(s)))
  {
    hide Manager.ControlOk, Look, NumbersOf, ClockOf, InboxOf, EndingOf, OwnerOf;
    tcp.PushControlList(s);
  }

  /** Taking the mark off does not change what the stream sends. */
  lemma Unmarked(s: Stream, c: Conn, ts: u32, room: nat)
    ensures var d := Unqueued(c);
      Reply(s, d) == Reply(s, c) && (Blocked(d, room) <==> Blocked(c, room)) &&
      (c.links.controlling ==> Queued(Rewound(d)) == Rewound(c)) && Replied(d, ts) == Served(c, ts)
  {}

  lemma FirstIsQueued(tcp: Manager)
    requires tcp.ControlOk() && tcp.controlList != []
    ensures tcp.controlList[0].onControlList && tcp.controlList[0] in tcp.streams
  {
    assert tcp.controlList[0] in tcp.controlList;
  }

  /** The stream of the control list that has sent its packet. */
  function Served(c: Conn, ts: u32): Conn {
    Replied(Unqueued(c), ts)
  }

  /** The control packets of several streams, one after the other. */
  ghost function Replies(list: seq<Stream>): seq<Wire>
    reads list
  {
    if list == [] then [] else Replies(list[..|list| - 1]) + Reply(list[|list| - 1], Whole(list[|list| - 1]))
  }

  /** user_tcp_write_controllist: streams are taken from the front, as many as the threshold allows,
      until one cannot send; that one stays in front. Their packets go out in this order, and nothing
      happens to the other streams. No FIN or reset is lost: whoever has left the list has been served. */
  method WriteControlList(tcp: Manager, curTs: u32, thresh0: nat) returns (cnt: nat, ghost k: nat)
    requires tcp.Valid()
    modifies tcp, tcp.streams
    ensures old(tcp.rtoNowIdx) == 0 ==> tcp.rtoNowIdx == 0
    ensures tcp.Valid() && tcp.streams <= old(tcp.streams)
    ensures k <= |old(tcp.controlList)| && k <= thresh0 && tcp.controlList == old(tcp.controlList)[k..]
    ensures cnt == if k == |old(tcp.controlList)| then k else k + 1
    ensures k == |old(tcp.controlList)| || k == thresh0 ||
      Blocked(old(Whole(tcp.controlList[k])), tcp.room)
    ensures tcp.log == old(tcp.log) + old(Replies(tcp.controlList[..k]))
    ensures tcp.room == old(tcp.room) - |old(Replies(tcp.controlList[..k]))|
    ensures forall s :: s in old(tcp.controlList)[..k] ==> Settled(s, old(Whole(s)), curTs, tcp.streams)
    ensures forall s :: s in old(tcp.streams) && s !in old(tcp.controlList)[..k] ==>
      s in tcp.streams && (Whole(s) == old(Whole(s)) ||
      (k < |old(tcp.controlList)| && s == old(tcp.controlList)[k] && Whole(s) == Rewound(old(Whole(s)))))
    ensures forall s :: s in old(tcp.streams) ==>
      MaySendFin(old(Look(s)), Look(s), s in old(tcp.controlList)[..k] && tcp.room < old(tcp.room))
  {
    hide Manager.ControlOk, Manager.SendOk, Manager.AckOk, Manager.Timers, MaySendFin, Whole, Blocked;
    hide Rewound, Reply, Look, Settled, Replies;
    ghost var init, was := tcp.controlList, Wholes(tcp.streams);
    EachReplies(init);
    EachShows(tcp.streams);
    ControlAdmitted(tcp);
    forall k | 0 <= k <= |init|
      ensures RepliesOf(init[..k], was) == Replies(init[..k])
    {
      SameReplies(init[..k], tcp.streams);
    }
    cnt, k := WriteControls(tcp, curTs, thresh0, was);
    SentIfFallen(tcp, init, k, was, curTs, old(tcp.room));
  }

  /** ... with the streams as they were before given as values. */
  method WriteControls(tcp: Manager, curTs: u32, thresh0: nat, ghost was: map<Stream, Conn>)
    returns (cnt: nat, ghost k: nat)
    requires tcp.Valid() && was == Wholes(tcp.streams)
    modifies tcp, tcp.streams
    ensures old(tcp.rtoNowIdx) == 0 ==> tcp.rtoNowIdx == 0
    ensures tcp.Valid() && tcp.streams <= old(tcp.streams)
    ensures k <= |old(tcp.controlList)| && k <= thresh0 && tcp.controlList == old(tcp.controlList)[k..]
    ensures cnt == if k == |old(tcp.controlList)| then k else k + 1
    ensures k == |old(tcp.controlList)| || k == thresh0 || (old(tcp.controlList)[k] in was &&
      Blocked(was[old(tcp.controlList)[k]], tcp.room))
    ensures tcp.log == old(tcp.log) + RepliesOf(old(tcp.controlList)[..k], was)
    ensures tcp.room == old(tcp.room) - |RepliesOf(old(tcp.controlList)[..k], was)|
    ensures ControlsServed(tcp.streams, old(tcp.controlList), k, was, curTs) ||
      (k < |old(tcp.controlList)| &&
      ControlsStopped(tcp.streams, old(tcp.controlList), k, was, curTs, old(tcp.controlList)[k]))
  {
    hide Manager.ControlOk, Manager.SendOk, Manager.AckOk, Manager.Timers, Whole, Blocked;
    hide Rewound, Reply, Settled, RepliesOf;
    var thresh := if thresh0 < |tcp.controlList| then thresh0 else |tcp.controlList|;
    ghost var init := tcp.controlList;
    ControlAdmitted(tcp);
    cnt, k := 0, 0;
    assert RepliesOf(init[..0], was) == [] by {
      NoReplies(init[..0], was);
    }
    while tcp.controlList != []
      invariant old(tcp.rtoNowIdx) == 0 ==> tcp.rtoNowIdx == 0
      invariant 0 <= k <= |init| && k <= thresh && cnt == k && tcp.Valid() && tcp.streams <= was.Keys
      invariant tcp.controlList == init[k..] && ControlsServed(tcp.streams, init, k, was, curTs)
      invariant tcp.log == old(tcp.log) + RepliesOf(init[..k], was)
      invariant tcp.room == old(tcp.room) - |RepliesOf(init[..k], was)|
      decreases |init| - k
    {
      cnt := cnt + 1;
      if cnt > thresh {
        break;
      }
      OneMoreReply(init, k, was);
      var r := ControlNext(tcp, tcp.controlList[0], curTs, init, k, was);
      if r < 0 {
        break;
      }
      k := k + 1;
    }
  }

  function RepliesOf(list: seq<Stream>, was: map<Stream, Conn>): seq<Wire> {
    if list == [] then [] else
      var s := list[|list| - 1];
      RepliesOf(list[..|list| - 1], was) + if s in was then Reply(s, was[s]) else []
  }

  lemma NoReplies(list: seq<Stream>, was: map<Stream, Conn>)
    ensures list == [] ==> RepliesOf(list, was) == []
  {}

  lemma OneMoreReply(list: seq<Stream>, k: nat, was: map<Stream, Conn>)
    requires k < |list|
    ensures list[k] in was ==>
      RepliesOf(list[..k + 1], was) == RepliesOf(list[..k], was) + Reply(list[k], was[list[k]])
  {
    assert list[..k + 1][..k] == list[..k];
  }

  lemma {:induction false} SameReplies(list: seq<Stream>, streams: set<Stream>)
    requires forall s :: s in list ==> s in streams
    ensures RepliesOf(list, Wholes(streams)) == Replies(list)
  {
    if list != [] {
      SameReplies(list[..|list| - 1], streams);
    }
  }

  /** ... and the next one could not send its packet. */
  ghost predicate ControlsStopped(streams: set<Stream>, list: seq<Stream>, k: nat, was: map<Stream, Conn>, ts: u32,
    s: Stream)
    reads was.Keys
  {
    && k <= |list|
    && (forall x :: x in list[..k] ==> x in was && Settled(x, was[x], ts, streams))
    && (forall x :: x in was && x !in list[..k] ==>
          x in streams && (Whole(x) == was[x] || (x == s && Whole(x) == Rewound(was[x]))))
  }

  /** The first `k` streams of the list have been served, and nothing has happened to the others. */
  ghost predicate ControlsServed(streams: set<Stream>, list: seq<Stream>, k: nat, was: map<Stream, Conn>, ts: u32)
    reads was.Keys
  {
    && k <= |list|
    && (forall s :: s in list[..k] ==> s in was && Settled(s, was[s], ts, streams))
    && (forall s :: s in was && s !in list[..k] ==> s in streams && Whole(s) == was[s])
  }

  /** One more stream of the list. */
  method ControlNext(tcp: Manager, s: Stream, curTs: u32, ghost list: seq<Stream>, ghost k: nat,
    ghost was: map<Stream, Conn>) returns (r: int)
    requires tcp.Valid() && k < |list| && s == list[k] && tcp.controlList == list[k..] && NoRepeats(list) && s in was
    requires tcp.streams <= was.Keys && ControlsServed(tcp.streams, list, k, was, curTs)
    modifies tcp, s
    ensures old(tcp.rtoNowIdx) == 0 ==> tcp.rtoNowIdx == 0
    ensures tcp.Valid() && tcp.streams <= old(tcp.streams)
    ensures r >= 0 ==>
      tcp.controlList == list[k + 1..] && ControlsServed(tcp.streams, list, k + 1, was, curTs) &&
      tcp.log == old(tcp.log) + Reply(s, was[s]) &&
      tcp.room == old(tcp.room) - |Reply(s, was[s])|
    ensures r < 0 ==>
      tcp.controlList == list[k..] && tcp.streams == old(tcp.streams) && Blocked(was[s], tcp.room) &&
      tcp.log == old(tcp.log) && tcp.room == old(tcp.room) && Whole(s) == Rewound(was[s])
  {
    hide Manager.ControlOk, Manager.SendOk, Manager.AckOk, Manager.Timers, MaySendFin, Whole, Blocked;
    hide Rewound, Reply, Look, Settled, Answered, Served;
    OneFurther(list, k);
    NotYet(list, k);
    ghost var left := tcp.streams;
    r := WriteFirst(tcp, s, curTs);
    if r >= 0 {
      JustSettled(s, was[s], curTs, tcp.streams);
      forall x | x in list[..k]
        ensures Settled(x, was[x], curTs, tcp.streams)
      {
        StillSettled(x, was[x], curTs, left, tcp.streams);
      }
    }
  }

  lemma SentIfFallen(tcp: Manager, list: seq<Stream>, k: nat, was: map<Stream, Conn>, ts: u32, room: nat)
    requires k <= |list| && forall s :: s in list[..k] ==>
      s in was && Settled(s, was[s], ts, tcp.streams) && (|Reply(s, was[s])| > 0 ==> tcp.room < room)
    requires forall s :: s in was && s !in list[..k] ==> Whole(s) == was[s] || Whole(s) == Rewound(was[s])
    ensures forall s :: s in was ==> MaySendFin(was[s].view, Look(s), s in list[..k] && tcp.room < room)
  {
    hide Settled, Reply, Look, Whole, Rewound, MaySendFin;
    forall s | s in was
      ensures MaySendFin(was[s].view, Look(s), s in list[..k] && tcp.room < room)
    {
      if s in list[..k] {
        SettledMaySendFin(s, was[s], ts, tcp.streams, tcp.room < room);
      } else {
        RewoundSendsNothing(s, was[s]);
      }
    }
  }

  lemma RewoundSendsNothing(s: Stream, c: Conn)
    requires Whole(s) == c || Whole(s) == Rewound(c)
    ensures MaySendFin(c.view, Look(s), false)
  {
    Shows(s);
  }

  lemma EachReplies(list: seq<Stream>)
    ensures forall k, x :: 0 <= k <= |list| && x in list[..k] ==> |Reply(x, Whole(x))| <= |Replies(list[..k])|
  {
    forall k, x | 0 <= k <= |list| && x in list[..k]
      ensures |Reply(x, Whole(x))| <= |Replies(list[..k])|
    {
      ReplyAmong(list[..k], x);
    }
  }

  lemma {:induction false} ReplyAmong(list: seq<Stream>, s: Stream)
    requires s in list
    ensures |Reply(s, Whole(s))| <= |Replies(list)|
  {
    if s != list[|list| - 1] {
      ReplyAmong(list[..|list| - 1], s);
    }
  }

  /** A stream that may have sent its FIN has sent a packet. */
  lemma SettledMaySendFin(s: Stream, c: Conn, ts: u32, streams: set<Stream>, out: bool)
    requires Settled(s, c, ts, streams) && (|Reply(s, c)| > 0 ==> out)
    ensures MaySendFin(c.view, Look(s), out)
  {
    ReplyMaySendFin(s, Unqueued(c), ts);
    Unmarked(s, c, ts, 0);
    Shows(s);
  }

  /** What has become of a stream that has sent its control packet. */
  ghost predicate Settled(s: Stream, c: Conn, ts: u32, streams: set<Stream>)
    reads s
  {
    Whole(s) == Served(c, ts) && (s in streams <==> s.state != CLOSED) && Answered(s, streams)
  }

  lemma JustSettled(s: Stream, c: Conn, ts: u32, streams: set<Stream>)
    requires Whole(s) == Served(c, ts) && (s in streams <==> s.state != CLOSED) && Answered(s, streams)
    ensures Settled(s, c, ts, streams)
  {}

  lemma StillSettled(s: Stream, c: Conn, ts: u32, before: set<Stream>, after: set<Stream>)
    requires Settled(s, c, ts, before) && (s in before <==> s in after)
    ensures Settled(s, c, ts, after)
  {}

  lemma ControlAdmitted(tcp: Manager)
    requires tcp.Queues()
    ensures NoRepeats(tcp.controlList) && forall s :: s in tcp.controlList ==> s in tcp.streams
  {}
}
