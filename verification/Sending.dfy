/** Packets and the lists of what is to be sent: user_tcp_send_tcppkt (src/user_tcp.c:523-649) and the
    list operations of lines 243-324. `tcp.room` is the number of packets the device still takes,
    `tcp.log` are those it has taken. */
module Sending {
  import opened Common
  import opened SeqArith
  import opened TcpState
  import opened SchedLists
  import opened Lifecycle

  const SYN := Flags(true, false, false, false, false)
  const SYN_ACK := Flags(true, false, true, false, false)
  const FIN_ACK := Flags(false, true, true, false, false)
  const ACK := Flags(false, false, true, false, false)
  const RST := Flags(false, false, false, true, false)
  const PROBE := Flags(false, false, true, false, true)

  /** The packet that a stream sends: a window probe has an old number, a FIN the number it was given,
      and every other packet the next one. */
  function Sent(s: Stream, c: Conn, f: Flags, len: nat): Wire {
    var seqNum := if f.cwr then Wrap(c.num.nxt - 1) else if f.fin then c.view.fss else c.num.nxt;
    Wire(s, f, seqNum, if f.ack then c.view.rcvNxt else 0, len)
  }

  /** A SYN and a FIN take a number of their own. */
  function Numbered(f: Flags, len: nat): nat {
    len + if f.syn || f.fin then 1 else 0
  }

  /** What sending a packet does to the stream: it takes numbers, and the timer runs for what took one. */
  function Emitted(c: Conn, f: Flags, len: nat, ts: u32): Conn {
    if Numbered(f, len) > 0 then Timed(Written(c, f, len, ts)) else Written(c, f, len, ts)
  }

  function Written(c: Conn, f: Flags, len: nat, ts: u32): Conn {
    Advanced(Stamped(c, f, ts), Numbered(f, len))
  }

  function Stamped(c: Conn, f: Flags, ts: u32): Conn {
    var d := if f.fin then c.(view := c.view.(finSent := true)) else c;
    if f.ack then d.(clock := d.clock.(active := ts)) else d
  }

  function Advanced(c: Conn, n: nat): Conn {
    c.(num := c.num.(nxt := Wrap(c.num.nxt + n)))
  }

  /** user_tcp_send_tcppkt as far as the lists and the connection state are concerned: the packet
      goes out if the device has room; data, a SYN and a FIN start the retransmission timer. */
  method SendTcppkt(tcp: Manager, s: Stream, curTs: u32, f: Flags, payloadlen: nat) returns (r: int)
    requires tcp.Timers() && s in tcp.streams
    requires Numbered(f, payloadlen) > 0 ==> !s.onTimewaitList
    modifies tcp`room, tcp`log, tcp`timeoutList, tcp`rtoList, tcp`rtoListCnt, tcp`rtoNowIdx, tcp`rtoNowTs
    modifies s`isFinSent, s`lastActiveTs, s`sndNxt, s`tsRto, s`onRtoIdx
    ensures old(tcp.rtoNowIdx) == 0 ==> tcp.rtoNowIdx == 0
    ensures tcp.Timers()
    ensures r == if old(tcp.room) == 0 then -2 else Numbered(f, payloadlen)
    ensures tcp.room == if old(tcp.room) == 0 then 0 else old(tcp.room) - 1
    ensures tcp.log == old(tcp.log) + if r < 0 then [] else [Sent(s, old(Whole(s)), f, payloadlen)]
    ensures Whole(s) == if r < 0 then old(Whole(s)) else Emitted(old(Whole(s)), f, payloadlen, curTs)
    ensures s.isFinSent == (old(s.isFinSent) || (f.fin && r >= 0))
    ensures s.sndNxt == Wrap(old(s.sndNxt) + if r > 0 then r else 0)
    ensures r >= 0 && f.ack ==> s.lastActiveTs == curTs
    ensures if r > 0 then s.onRtoIdx >= 0 && s.tsRto == Wrap(curTs + s.rto)
      else s.onRtoIdx == old(s.onRtoIdx) && s.tsRto == old(s.tsRto)
    // the first timer of all winds the wheel to itself
    ensures r > 0 && old(s.onRtoIdx) < 0 ==> s.onRtoIdx == tcp.SlotFor(s.tsRto, tcp.rtoNowTs)
    ensures r > 0 && old(tcp.rtoListCnt) == 0 ==> tcp.rtoNowIdx == 0 && tcp.rtoNowTs == s.tsRto
  {
    hide Manager.Timers, Manager.SlotFor, Whole, Written, Timed, Sent;
    if tcp.room == 0 {
      return -2;
    }
    tcp.room := tcp.room - 1;
    tcp.log := tcp.log + [Sent(s, Whole(s), f, payloadlen)];
    r := Emit(s, curTs, f, payloadlen);
    if f.ack {
      Touch(tcp, s);
    }
    if r > 0 {
      StartTimer(tcp, s);
    }
  }

  /** Lines 587-649: the fields of the stream. */
  method Emit(s: Stream, curTs: u32, f: Flags, payloadlen: nat) returns (r: int)
    modifies s`isFinSent, s`lastActiveTs, s`sndNxt, s`tsRto
    ensures r == Numbered(f, payloadlen) && s.isFinSent == (old(s.isFinSent) || f.fin)
    ensures s.sndNxt == Wrap(old(s.sndNxt) + r) && s.lastActiveTs == if f.ack then curTs else old(s.lastActiveTs)
    ensures s.tsRto == if r > 0 then Wrap(curTs + s.rto) else old(s.tsRto)
    ensures Whole(s) == Written(old(Whole(s)), f, payloadlen, curTs)
  {
    hide Whole, Stamped, Advanced, Wrap;
    Stamp(s, f, curTs);
    r := Advance(s, f, payloadlen);
    if r > 0 {
      s.tsRto := Wrap(curTs + s.rto);
    }
  }

  /** Lines 587-611. */
  method Stamp(s: Stream, f: Flags, curTs: u32)
    modifies s`isFinSent, s`lastActiveTs
    ensures s.isFinSent == (old(s.isFinSent) || f.fin) && s.lastActiveTs == if f.ack then curTs else old(s.lastActiveTs)
    ensures Whole(s) == Stamped(old(Whole(s)), f, curTs)
  {
    hide NumbersOf, LinksOf, InboxOf, EndingOf, OwnerOf;
    if f.fin {
      s.isFinSent := true;
    }
    if f.ack {
      s.lastActiveTs := curTs;
    }
  }

  /** Lines 638-644. */
  method Advance(s: Stream, f: Flags, payloadlen: nat) returns (r: int)
    modifies s`sndNxt
    ensures r == Numbered(f, payloadlen) && s.sndNxt == Wrap(old(s.sndNxt) + r)
    ensures Whole(s) == Advanced(old(Whole(s)), r)
  {
    hide Wrap, Look, LinksOf, ClockOf, InboxOf, EndingOf, OwnerOf;
    WrapWrap(s.sndNxt + payloadlen, 1);
    s.sndNxt := Wrap(s.sndNxt + payloadlen);
    r := payloadlen;
    if f.syn || f.fin {
      s.sndNxt := Wrap(s.sndNxt + 1);
      r := r + 1;
    }
  }

  method Touch(tcp: Manager, s: Stream)
    requires tcp.Timers() && s in tcp.streams
    modifies tcp`timeoutList
    ensures tcp.Timers()
  {
    hide Manager.RtoOk, Manager.TimeoutOk, Manager.TimewaitOk, Manager.Apart;
    tcp.UpdateTimeoutList(s);
  }

  method StartTimer(tcp: Manager, s: Stream)
    requires tcp.Timers() && s in tcp.streams && !s.onTimewaitList
    modifies tcp`rtoList, tcp`rtoListCnt, tcp`rtoNowIdx, tcp`rtoNowTs, s`onRtoIdx
    ensures old(tcp.rtoNowIdx) == 0 ==> tcp.rtoNowIdx == 0
    ensures tcp.Timers() && s.onRtoIdx >= 0
    ensures old(s.onRtoIdx) < 0 ==> s.onRtoIdx == tcp.SlotFor(s.tsRto, tcp.rtoNowTs)
    ensures old(tcp.rtoListCnt) == 0 ==> tcp.rtoNowIdx == 0 && tcp.rtoNowTs == s.tsRto
    ensures Whole(s) == Timed(old(Whole(s)))
  {
    hide Manager.RtoOk, Manager.TimeoutOk, Manager.TimewaitOk, Look, NumbersOf, LinksOf, InboxOf, EndingOf, OwnerOf;
    tcp.AddToRtoList(s);
  }

  /** The stream is destroyed. */
  method Drop(tcp: Manager, s: Stream)
    requires tcp.Valid() && s in tcp.streams
    modifies tcp`controlList, tcp`controlListCnt, tcp`sendList, tcp`sendListCnt, tcp`ackList, tcp`ackListCnt
    modifies tcp`rtoList, tcp`rtoListCnt, tcp`timewaitList, tcp`timewaitListCnt, tcp`timeoutList
    modifies tcp`timeoutListCnt
    modifies s`onControlList, s`onSendList, s`onAckList, s`onRtoIdx, s`onTimewaitList, s`onTimeoutList, tcp`streams
    ensures tcp.Valid() && tcp.streams == old(tcp.streams) - {s}
    ensures !s.onControlList && !s.onSendList && !s.onAckList && !s.onTimewaitList && !s.onTimeoutList &&
      s.onRtoIdx < 0
    ensures Whole(s) == Off(old(Whole(s)))
    ensures tcp.controlList == if old(s.onControlList) then Without(old(tcp.controlList), s) else old(tcp.controlList)
    ensures tcp.timewaitList ==
      if old(s.onTimewaitList) then Without(old(tcp.timewaitList), s) else old(tcp.timewaitList)
    ensures tcp.timeoutList == if old(s.onTimeoutList) then Without(old(tcp.timeoutList), s) else old(tcp.timeoutList)
    ensures old(s.onRtoIdx) < 0 ==> tcp.rtoList == old(tcp.rtoList)
  {
    hide Manager.Valid, Look, NumbersOf, LinksOf, ClockOf, InboxOf, EndingOf, OwnerOf, Without, Whole;
    tcp.Destroy(s);
    Unlinked(s);
  }

  twostate lemma Unlinked(s: Stream)
    requires !s.onControlList && !s.onSendList && !s.onAckList && !s.onTimewaitList && !s.onTimeoutList &&
      s.onRtoIdx < 0
    requires unchanged(s`controlListWaiting, s`ackCnt, s`isWack, s`nrtx, s`tsTwExpire, s`lastActiveTs)
    requires Look(s) == old(Look(s)) && NumbersOf(s) == old(NumbersOf(s)) && InboxOf(s) == old(InboxOf(s))
    requires EndingOf(s) == old(EndingOf(s)) && OwnerOf(s) == old(OwnerOf(s))
    ensures Whole(s) == Off(old(Whole(s)))
  {
    hide Look, NumbersOf, InboxOf, EndingOf, OwnerOf;
  }

  lemma DoneIsIdle(tcp: Manager, s: Stream)
    requires tcp.Timers() && s in tcp.streams
    ensures s.onTimewaitList ==> s.state == TIME_WAIT || s.state == CLOSED
  {}

  lemma OneFurther(list: seq<Stream>, i: nat)
    requires i < |list|
    ensures list[..i + 1] == list[..i] + [list[i]]
  {}

  lemma NotYet(list: seq<Stream>, k: nat)
    requires NoRepeats(list) && k < |list|
    ensures list[k] !in list[..k]
  {}

  method WantControl(tcp: Manager, s: Stream)
    requires tcp.Queues() && s in tcp.streams
    modifies tcp`controlList, tcp`controlListCnt, s`onControlList
    ensures tcp.Queues() && s.onControlList && Whole(s) == Queued(old(Whole(s)))
    ensures tcp.controlList == if old(s.onControlList) then old(tcp.controlList) else old(tcp.controlList) + [s]
  {
    hide Manager.ControlOk, Manager.SendOk, Manager.AckOk, Look, NumbersOf, ClockOf, InboxOf, EndingOf, OwnerOf;
    tcp.AddToControlList(s);
  }

  method WantSend(tcp: Manager, s: Stream)
    requires tcp.Queues() && s in tcp.streams && s.hasSndbuf
    modifies tcp`sendList, tcp`sendListCnt, s`onSendList
    ensures tcp.Queues() && s.onSendList && Whole(s) == Loaded(old(Whole(s)))
    ensures tcp.sendList == if old(s.onSendList) then old(tcp.sendList) else old(tcp.sendList) + [s]
  {
    hide Manager.ControlOk, Manager.SendOk, Manager.AckOk, Look, NumbersOf, ClockOf, InboxOf, EndingOf, OwnerOf;
    tcp.AddToSendList(s);
  }

  method LeaveControl(tcp: Manager, s: Stream)
    requires tcp.Queues() && s in tcp.streams
    modifies tcp`controlList, tcp`controlListCnt, s`onControlList
    ensures tcp.Queues() && !s.onControlList && Whole(s) == Unqueued(old(Whole(s)))
  {
    hide Manager.ControlOk, Manager.SendOk, Manager.AckOk, Look, NumbersOf, ClockOf, InboxOf, EndingOf, OwnerOf;
    tcp.RemoveFromControlList(s);
  }

  method LeaveAcks(tcp: Manager, s: Stream)
    requires tcp.Queues() && s in tcp.streams && s.onAckList
    modifies tcp`ackList, tcp`ackListCnt, s`onAckList
    ensures tcp.Queues() && !s.onAckList && tcp.ackList == Without(old(tcp.ackList), s)
    ensures Whole(s) == Quiet(old(Whole(s)))
  {
    hide Manager.ControlOk, Manager.SendOk, Manager.AckOk, Look, NumbersOf, ClockOf, InboxOf, EndingOf, OwnerOf;
    tcp.RemoveFromAckList(s);
  }

  /** A postponed control packet is queued once the stream waits for nothing else. */
  method Resume(tcp: Manager, s: Stream, busy: bool)
    requires tcp.Queues() && s in tcp.streams
    modifies tcp`controlList, tcp`controlListCnt, s`onControlList, s`controlListWaiting
    ensures tcp.Queues() && (old(s.controlListWaiting) && !busy ==> s.onControlList && !s.controlListWaiting)
    ensures Whole(s) == Resumed(old(Whole(s)), busy)
  {
    hide Manager.ControlOk, Manager.SendOk, Manager.AckOk, Look, NumbersOf, ClockOf, InboxOf, EndingOf, OwnerOf;
    if s.controlListWaiting {
      if !busy {
        s.controlListWaiting := false;
        tcp.AddToControlList(s);
      }
    }
  }

  /** user_tcp_enqueue_acklist. The counter has six bits. */
  method EnqueueAck(tcp: Manager, s: Stream, opt: AckOpt)
    requires tcp.Queues() && s in tcp.streams
    modifies tcp`ackList, tcp`ackListCnt, s`onAckList, s`ackCnt, s`isWack
    ensures tcp.Queues() && s.onAckList && tcp.controlList == old(tcp.controlList)
    ensures tcp.ackList == if old(s.onAckList) then old(tcp.ackList) else old(tcp.ackList) + [s]
    ensures s.isWack == (old(s.isWack) || opt == WACK)
    ensures s.ackCnt == if opt == NOW then (old(s.ackCnt) + 1) % 64
      else if opt == AGGREGATE && old(s.ackCnt) == 0 then 1 else old(s.ackCnt)
    ensures Whole(s) == Owing(old(Whole(s)), opt)
  {
    hide Manager.ControlOk, Manager.SendOk, Manager.AckOk, Look, NumbersOf, ClockOf, InboxOf, EndingOf, OwnerOf;
    match opt {
      case NOW => s.ackCnt := (s.ackCnt + 1) % 64;
      case AGGREGATE =>
        if s.ackCnt == 0 {
          s.ackCnt := 1;
        }
      case WACK => s.isWack := true;
    }
    tcp.AddToAckList(s);
  }

  function Least(a: nat, b: nat): nat {
    if a < b then a else b
  }

  lemma NotMoved(x: u32)
    ensures Wrap(x + 0) == x
  {}
}
