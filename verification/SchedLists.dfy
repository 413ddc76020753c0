/** The scheduling lists of a stack instance: which stream waits to send a control packet, data
    or an acknowledgement, which one has a retransmission timer, lingers in TIME_WAIT or is
    watched for inactivity (src/user_tcp.c:243-324 and 2534-2870, src/user_timer.c). */
module SchedLists {
  import opened Common
  import opened SeqArith
  import opened TcpState

  const RTO_HASH := 3000
  const MAX_RTX := 16
  const MAX_SYN_RETRY := 7
  const TIMEOUT_MS := 30000

  datatype CloseReason =
    | NOT_CLOSED | ACTIVE_CLOSE | PASSIVE_CLOSE | CONN_FAIL | CONN_LOST | RESET | NO_MEM | NOT_ACCEPTED | TIMEDOUT

  /** The flags `closed`, `on_closeq` and `on_closeq_int`: whether the application has asked for a
      close, and in which queue that request waits. */
  datatype CloseRequest = CloseRequest(closed: bool, onCloseq: bool, onCloseqInt: bool)

  /** The flags of a packet. */
  datatype Flags = Flags(syn: bool, fin: bool, ack: bool, rst: bool, cwr: bool)

  /** A packet that the device has taken: whose it is, its flags and numbers, and its bytes of data. */
  datatype Wire = Wire(stream: Stream, flags: Flags, seqNum: u32, ackSeq: u32, len: nat)

  class Stream {
    var state: State
    var closeReason: CloseReason
    var haveReset: bool
    /** Whether an application holds the stream: the fields `s` and `socket` of the source. */
    var hasSocket: bool
    var hasSocketMap: bool
    var hasSndbuf: bool
    var request: CloseRequest

    var onControlList: bool
    var onSendList: bool
    var onAckList: bool
    var onTimewaitList: bool
    var onTimeoutList: bool
    var onRtoIdx: int
    var controlListWaiting: bool
    var ackCnt: nat
    var isWack: bool

    const iss: u32
    const irs: u32
    var sndNxt: u32
    var sndUna: u32
    var rcvNxt: u32
    var recvEdge: u32
    var peerWnd: u32
    var wscalePeer: nat
    var hasRecvbuf: bool
    var fss: u32
    var isFinSent: bool
    var nrtx: nat
    var rto: u32
    var tsRto: u32
    var tsTwExpire: u32
    var lastActiveTs: u32

    /** Whether our FIN has been acknowledged and the peer's FIN consumed. */
    ghost var finAcked: bool
    ghost var peerFin: bool

    /** CreateTcpStream. */
    constructor (iss: u32, irs: u32)
      ensures state == LISTEN && !onControlList && !onSendList && !onAckList && !onTimewaitList && !onTimeoutList &&
        onRtoIdx == -1
      ensures !finAcked && !peerFin && !isFinSent && sndNxt == sndUna == iss && rcvNxt == irs && this.iss == iss &&
        this.irs == irs
      ensures request == CloseRequest(false, false, false) && !haveReset
      ensures !controlListWaiting && ackCnt == 0 && !isWack && nrtx == 0
    {
      request := CloseRequest(false, false, false);
      state, closeReason, haveReset, hasSocket, hasSocketMap, hasSndbuf :=
        LISTEN, NOT_CLOSED, false, false, false, false;
      onControlList, onSendList, onAckList, onTimewaitList, onTimeoutList, onRtoIdx :=
        false, false, false, false, false, -1;
      controlListWaiting, ackCnt, isWack := false, 0, false;
      this.iss, this.irs, sndNxt, sndUna, rcvNxt, fss := iss, irs, iss, iss, irs, 0;
      recvEdge, hasRecvbuf, peerWnd, wscalePeer := 0, false, 0, 0;
      isFinSent, nrtx, rto, tsRto, tsTwExpire, lastActiveTs := false, 0, 500, 0, 0, 0;
      finAcked, peerFin := false, false;
    }
  }

  // ---- lists without repetition

  function Without(list: seq<Stream>, s: Stream): seq<Stream> {
    if list == [] then [] else if list[0] == s then list[1..] else [list[0]] + Without(list[1..], s)
  }

  /** Unlinking an element leaves the others, once each. */
  lemma {:induction false} WithoutKeeps(list: seq<Stream>, s: Stream)
    requires NoRepeats(list)
    ensures NoRepeats(Without(list, s))
    ensures forall x :: x in Without(list, s) ==> x in list && x != s
    ensures forall x :: x in list && x != s ==> x in Without(list, s)
    ensures |Without(list, s)| == if s in list then |list| - 1 else |list|
  {
    if list != [] {
      WithoutKeeps(list[1..], s);
      assert list == [list[0]] + list[1..];
      var rest := Without(list[1..], s);
      forall i, j | 0 <= i < j < |Without(list, s)|
        ensures Without(list, s)[i] != Without(list, s)[j]
      {
        if list[0] != s && i == 0 {
          assert rest[j - 1] in rest;
        }
      }
    }
  }

  lemma {:induction false} WithoutMiddle(a: seq<Stream>, s: Stream, b: seq<Stream>)
    requires s !in a
    ensures Without(a + [s] + b, s) == a + b
  {
    if a == [] {
      assert a + [s] + b == [s] + b && a + b == b;
    } else {
      WithoutMiddle(a[1..], s, b);
      assert a + [s] + b == [a[0]] + (a[1..] + [s] + b);
      assert a + b == [a[0]] + (a[1..] + b);
    }
  }

  lemma AddedKeeps(list: seq<Stream>, s: Stream)
    requires NoRepeats(list) && s !in list
    ensures NoRepeats(list + [s]) && NoRepeats([s] + list)
  {}

  /** A list holds exactly the streams of the set, each once, and the counter says how many. */
  ghost predicate Holds(list: seq<Stream>, cnt: int, members: set<Stream>) {
    NoRepeats(list) && cnt == |list| && (forall s :: s in list ==> s in members) &&
      (forall s :: s in members ==> s in list)
  }

  lemma HoldsAdded(list: seq<Stream>, cnt: int, members: set<Stream>, s: Stream)
    requires Holds(list, cnt, members) && s !in members
    ensures Holds(list + [s], cnt + 1, members + {s}) && Holds([s] + list, cnt + 1, members + {s})
  {
    AddedKeeps(list, s);
  }

  lemma HoldsWithout(list: seq<Stream>, cnt: int, members: set<Stream>, s: Stream)
    requires Holds(list, cnt, members) && s in members
    ensures Holds(Without(list, s), cnt - 1, members - {s})
  {
    WithoutKeeps(list, s);
  }

  // ---- the slots of the retransmission wheel

  ghost function Sizes(lists: seq<seq<Stream>>): nat {
    if lists == [] then 0 else |lists[0]| + Sizes(lists[1..])
  }

  lemma {:induction false} SizesUpdate(lists: seq<seq<Stream>>, k: nat, list: seq<Stream>)
    requires k < |lists|
    ensures Sizes(lists[k := list]) == Sizes(lists) - |lists[k]| + |list|
  {
    if k > 0 {
      assert lists[k := list][1..] == lists[1..][k - 1 := list];
      SizesUpdate(lists[1..], k - 1, list);
    }
  }

  lemma {:induction false} SizesZero(lists: seq<seq<Stream>>)
    requires forall k :: 0 <= k < |lists| ==> lists[k] == []
    ensures Sizes(lists) == 0
  {
    if lists != [] {
      SizesZero(lists[1..]);
    }
  }

  class Manager {
    var controlList: seq<Stream>
    var controlListCnt: int
    var sendList: seq<Stream>
    var sendListCnt: int
    var ackList: seq<Stream>
    var ackListCnt: int
    var rtoList: seq<seq<Stream>>
    var rtoListCnt: int
    var rtoNowIdx: nat
    var rtoNowTs: u32
    var timewaitList: seq<Stream>
    var timewaitListCnt: int
    var timeoutList: seq<Stream>
    var timeoutListCnt: int

    /** How many more packets the device accepts, and the packets that it has accepted. */
    var room: nat
    ghost var log: seq<Wire>

    /** The flow table: the streams that have been created and not destroyed. */
    var streams: set<Stream>

    ghost predicate ControlOk()
      reads this`controlList, this`controlListCnt, this`streams, streams`onControlList
    {
      Holds(controlList, controlListCnt, set s | s in streams && s.onControlList)
    }

    ghost predicate SendOk()
      reads this`sendList, this`sendListCnt, this`streams, streams`onSendList
    {
      Holds(sendList, sendListCnt, set s | s in streams && s.onSendList)
    }

    ghost predicate AckOk()
      reads this`ackList, this`ackListCnt, this`streams, streams`onAckList
    {
      Holds(ackList, ackListCnt, set s | s in streams && s.onAckList)
    }

    ghost predicate TimewaitOk()
      reads this`timewaitList, this`timewaitListCnt, this`streams, streams`onTimewaitList
    {
      Holds(timewaitList, timewaitListCnt, set s | s in streams && s.onTimewaitList)
    }

    ghost predicate TimeoutOk()
      reads this`timeoutList, this`timeoutListCnt, this`streams, streams`onTimeoutList
    {
      Holds(timeoutList, timeoutListCnt, set s | s in streams && s.onTimeoutList)
    }

    /** A stream is in the slot of the wheel that its index names, and in no other. */
    ghost predicate RtoOk()
      reads this`rtoList, this`rtoListCnt, this`rtoNowIdx, this`streams, streams`onRtoIdx
    {
      && |rtoList| == RTO_HASH + 1 && rtoNowIdx < RTO_HASH && rtoListCnt == Sizes(rtoList)
      && (forall s :: s in streams ==> s.onRtoIdx <= RTO_HASH)
      && forall k :: 0 <= k <= RTO_HASH ==> Holds(rtoList[k], |rtoList[k]|, set s | s in streams && s.onRtoIdx == k)
    }

    /** The two lists that share `timer_link` have no stream in common; only a stream that is done
        lingers, and only one whose connection was established is watched for inactivity. */
    ghost predicate Apart()
      reads this`streams, streams`onTimewaitList, streams`onTimeoutList, streams`onRtoIdx, streams`state
    {
      forall s :: s in streams ==>
        && (s.onTimewaitList ==> s.onRtoIdx < 0 && (s.state == TIME_WAIT || s.state == CLOSED))
        && (s.onTimeoutList ==> s.state != LISTEN && s.state != SYN_SENT && s.state != SYN_RCVD)
    }

    /** The lists of what is to be sent. */
    ghost predicate Queues()
      reads this`controlList, this`controlListCnt, this`sendList, this`sendListCnt, this`ackList, this`ackListCnt
      reads this`streams
      reads streams`onControlList, streams`onSendList, streams`onAckList
    {
      ControlOk() && SendOk() && AckOk()
    }

    /** The lists of what is to be done later. */
    ghost predicate Timers()
      reads this`rtoList, this`rtoListCnt, this`rtoNowIdx, this`streams, streams`onRtoIdx
      reads this`timewaitList, this`timewaitListCnt, this`timeoutList, this`timeoutListCnt
      reads streams`onTimewaitList, streams`onTimeoutList, streams`state
    {
      TimewaitOk() && TimeoutOk() && RtoOk() && Apart()
    }

    ghost predicate Valid()
      reads this, streams
    {
      Queues() && Timers()
    }

    constructor ()
      ensures Valid() && streams == {} && rtoNowIdx == 0 && log == []
    {
      controlList, sendList, ackList, timewaitList, timeoutList := [], [], [], [], [];
      controlListCnt, sendListCnt, ackListCnt, timewaitListCnt, timeoutListCnt := 0, 0, 0, 0, 0;
      rtoList, rtoListCnt, rtoNowIdx, rtoNowTs := seq(RTO_HASH + 1, i => []), 0, 0, 0;
      room, streams, log := 0, {}, [];
      new;
      SizesZero(rtoList);
    }

    // ---- the control, send and acknowledgement lists

    method AddToControlList(s: Stream)
      requires ControlOk() && s in streams
      modifies this`controlList, this`controlListCnt, s`onControlList
      ensures ControlOk() && s.onControlList
      ensures controlList == if old(s.onControlList) then old(controlList) else old(controlList) + [s]
    {
      if !s.onControlList {
        ghost var members := set x | x in streams && x.onControlList;
        HoldsAdded(controlList, controlListCnt, members, s);
        s.onControlList := true;
        controlList := controlList + [s];
        controlListCnt := controlListCnt + 1;
        assert (set x | x in streams && x.onControlList) == members + {s};
      }
    }

    method RemoveFromControlList(s: Stream)
      requires ControlOk() && s in streams
      modifies this`controlList, this`controlListCnt, s`onControlList
      ensures ControlOk() && !s.onControlList
      ensures controlList == if old(s.onControlList) then Without(old(controlList), s) else old(controlList)
    {
      if s.onControlList {
        ghost var members := set x | x in streams && x.onControlList;
        HoldsWithout(controlList, controlListCnt, members, s);
        s.onControlList := false;
        controlList := Without(controlList, s);
        controlListCnt := controlListCnt - 1;
        assert (set x | x in streams && x.onControlList) == members - {s};
      }
    }

    /** Lines 2638-2645 of src/user_tcp.c: the first stream leaves the list. */
    method PopControlList(s: Stream)
      requires ControlOk() && controlList != [] && s == controlList[0]
      modifies this`controlList, this`controlListCnt, s`onControlList
      ensures ControlOk() && !s.onControlList && controlList == old(controlList)[1..] && s in streams
    {
      assert s in controlList;
      RemoveFromControlList(s);
    }

    /** ... and is put back in front. */
    method PushControlList(s: Stream)
      requires ControlOk() && s in streams && !s.onControlList
      modifies this`controlList, this`controlListCnt, s`onControlList
      ensures ControlOk() && s.onControlList && controlList == [s] + old(controlList)
    {
      ghost var members := set x | x in streams && x.onControlList;
      HoldsAdded(controlList, controlListCnt, members, s);
      controlList := [s] + controlList;
      s.onControlList := true;
      controlListCnt := controlListCnt + 1;
      assert (set x | x in streams && x.onControlList) == members + {s};
    }

    method AddToSendList(s: Stream)
      requires SendOk() && s in streams && s.hasSndbuf
      modifies this`sendList, this`sendListCnt, s`onSendList
      ensures SendOk() && s.onSendList
      ensures sendList == if old(s.onSendList) then old(sendList) else old(sendList) + [s]
    {
      if !s.onSendList {
        ghost var members := set x | x in streams && x.onSendList;
        HoldsAdded(sendList, sendListCnt, members, s);
        s.onSendList := true;
        sendList := sendList + [s];
        sendListCnt := sendListCnt + 1;
        assert (set x | x in streams && x.onSendList) == members + {s};
      }
    }

    method RemoveFromSendList(s: Stream)
      requires SendOk() && s in streams
      modifies this`sendList, this`sendListCnt, s`onSendList
      ensures SendOk() && !s.onSendList
      ensures sendList == if old(s.onSendList) then Without(old(sendList), s) else old(sendList)
    {
      if s.onSendList {
        ghost var members := set x | x in streams && x.onSendList;
        HoldsWithout(sendList, sendListCnt, members, s);
        s.onSendList := false;
        sendList := Without(sendList, s);
        sendListCnt := sendListCnt - 1;
        assert (set x | x in streams && x.onSendList) == members - {s};
      }
    }

    method AddToAckList(s: Stream)
      requires AckOk() && s in streams
      modifies this`ackList, this`ackListCnt, s`onAckList
      ensures AckOk() && s.onAckList
      ensures ackList == if old(s.onAckList) then old(ackList) else old(ackList) + [s]
    {
      if !s.onAckList {
        ghost var members := set x | x in streams && x.onAckList;
        HoldsAdded(ackList, ackListCnt, members, s);
        s.onAckList := true;
        ackList := ackList + [s];
        ackListCnt := ackListCnt + 1;
        assert (set x | x in streams && x.onAckList) == members + {s};
      }
    }

    method RemoveFromAckList(s: Stream)
      requires AckOk() && s in streams
      modifies this`ackList, this`ackListCnt, s`onAckList
      ensures AckOk() && !s.onAckList
      ensures ackList == if old(s.onAckList) then Without(old(ackList), s) else old(ackList)
    {
      if s.onAckList {
        ghost var members := set x | x in streams && x.onAckList;
        HoldsWithout(ackList, ackListCnt, members, s);
        s.onAckList := false;
        ackList := Without(ackList, s);
        ackListCnt := ackListCnt - 1;
        assert (set x | x in streams && x.onAckList) == members - {s};
      }
    }

    /** While its data is being sent a stream is off the list, but still marked and counted. */
    ghost predicate SendTaken(s: Stream)
      reads this`sendList, this`sendListCnt, this`streams, streams`onSendList
    {
      s in streams && s.onSendList && Holds(sendList, sendListCnt - 1, (set x | x in streams && x.onSendList) - {s})
    }

    /** Lines 2684-2685 of src/user_tcp.c. */
    method TakeSendList(s: Stream)
      requires SendOk() && sendList != [] && s == sendList[0]
      modifies this`sendList
      ensures SendTaken(s) && sendList == old(sendList)[1..]
    {
      assert s in sendList;
      HoldsWithout(sendList, sendListCnt, (set x | x in streams && x.onSendList), s);
      sendList := sendList[1..];
    }

    /** Line 2718: back to the end of the list. */
    method ReturnSendList(s: Stream)
      requires SendTaken(s)
      modifies this`sendList
      ensures SendOk() && sendList == old(sendList) + [s]
    {
      ghost var members := set x | x in streams && x.onSendList;
      HoldsAdded(sendList, sendListCnt - 1, members - {s}, s);
      assert members - {s} + {s} == members;
      sendList := sendList + [s];
    }

    /** Lines 2723-2724. */
    method FinishSendList(s: Stream)
      requires SendTaken(s)
      modifies this`sendListCnt, s`onSendList
      ensures SendOk() && !s.onSendList
    {
      ghost var members := set x | x in streams && x.onSendList;
      s.onSendList := false;
      sendListCnt := sendListCnt - 1;
      assert (set x | x in streams && x.onSendList) == members - {s};
    }

    // ---- the retransmission wheel

    /** The slot for a timer: one of the wheel, or the overflow slot if it is too far ahead. */
    function SlotFor(ts: u32, now: u32): (k: nat)
      ensures k <= RTO_HASH
    {
      if Signed(Wrap(ts - now)) < RTO_HASH then ts % RTO_HASH else RTO_HASH
    }

    /** AddtoRTOList. Nothing in it looks at the timewait list, which uses the same links. */
    method AddToRtoList(s: Stream)
      requires RtoOk() && s in streams
      modifies this`rtoList, this`rtoListCnt, this`rtoNowIdx, this`rtoNowTs, s`onRtoIdx
      ensures RtoOk() && |rtoList| == |old(rtoList)| == RTO_HASH + 1
      ensures s.onRtoIdx == if old(s.onRtoIdx) >= 0 then old(s.onRtoIdx) else SlotFor(s.tsRto, rtoNowTs)
      ensures rtoNowTs == (if old(rtoListCnt) == 0 then s.tsRto else old(rtoNowTs)) &&
        rtoNowIdx == (if old(rtoListCnt) == 0 then 0 else old(rtoNowIdx))
      ensures if old(s.onRtoIdx) >= 0 then rtoList == old(rtoList)
              else rtoList == old(rtoList)[s.onRtoIdx := old(rtoList)[s.onRtoIdx] + [s]]
    {
      if rtoListCnt == 0 {
        rtoNowIdx := 0;
        rtoNowTs := s.tsRto;
      }
      if s.onRtoIdx < 0 {
        var diff := Signed(Wrap(s.tsRto - rtoNowTs));
        if diff < RTO_HASH {
          PutInSlot(s, s.tsRto % RTO_HASH);
        } else {
          PutInSlot(s, RTO_HASH);
        }
      }
    }

    method PutInSlot(s: Stream, k: nat)
      requires RtoOk() && s in streams && s.onRtoIdx < 0 && k <= RTO_HASH
      modifies this`rtoList, this`rtoListCnt, s`onRtoIdx
      ensures RtoOk() && s.onRtoIdx == k && rtoListCnt == old(rtoListCnt) + 1
      ensures rtoList == old(rtoList)[k := old(rtoList)[k] + [s]]
    {
      ghost var before := rtoList;
      ghost var members := set x | x in streams && x.onRtoIdx == k;
      HoldsAdded(rtoList[k], |rtoList[k]|, members, s);
      SizesUpdate(rtoList, k, rtoList[k] + [s]);
      label linked:
      s.onRtoIdx := k;
      rtoList := rtoList[k := rtoList[k] + [s]];
      rtoListCnt := rtoListCnt + 1;
      forall j | 0 <= j <= RTO_HASH
        ensures Holds(rtoList[j], |rtoList[j]|, set x | x in streams && x.onRtoIdx == j)
      {
        assert (set x | x in streams && x.onRtoIdx == j) == if j == k then members + {s}
          else old@linked(set x | x in streams && x.onRtoIdx == j);
      }
    }

    /** RemoveFromRTOList. */
    method RemoveFromRtoList(s: Stream)
      requires RtoOk() && s in streams
      modifies this`rtoList, this`rtoListCnt, s`onRtoIdx
      ensures RtoOk() && s.onRtoIdx < 0 && rtoListCnt == old(rtoListCnt) - if old(s.onRtoIdx) < 0 then 0 else 1
      ensures rtoList == if old(s.onRtoIdx) < 0 then old(rtoList)
        else old(rtoList)[old(s.onRtoIdx) := Without(old(rtoList)[old(s.onRtoIdx)], s)]
    {
      if s.onRtoIdx < 0 {
        return;
      }
      var k := s.onRtoIdx;
      ghost var members := set x | x in streams && x.onRtoIdx == k;
      HoldsWithout(rtoList[k], |rtoList[k]|, members, s);
      SizesUpdate(rtoList, k, Without(rtoList[k], s));
      label linked:
      rtoList := rtoList[k := Without(rtoList[k], s)];
      s.onRtoIdx := -1;
      rtoListCnt := rtoListCnt - 1;
      forall j | 0 <= j <= RTO_HASH
        ensures Holds(rtoList[j], |rtoList[j]|, set x | x in streams && x.onRtoIdx == j)
      {
        assert (set x | x in streams && x.onRtoIdx == j) == if j == k then members - {s}
          else old@linked(set x | x in streams && x.onRtoIdx == j);
      }
    }

    // ---- the timewait and timeout lists

    /** AddtoTimewaitList: a stream that is there already moves to the end, one with a
        retransmission timer loses it. */
    method AddToTimewaitList(s: Stream, curTs: u32)
      requires TimewaitOk() && RtoOk() && Apart() && s in streams && (s.state == TIME_WAIT || s.state == CLOSED)
      modifies this`timewaitList, this`timewaitListCnt, this`rtoList, this`rtoListCnt, s`onTimewaitList, s`onRtoIdx
      modifies s`tsTwExpire
      ensures TimewaitOk() && RtoOk() && Apart() && s.onTimewaitList && s.onRtoIdx < 0
      ensures s.tsTwExpire == curTs
      ensures timewaitList == (if old(s.onTimewaitList) then Without(old(timewaitList), s) else old(timewaitList)) + [s]
    {
      s.tsTwExpire := Wrap(curTs + 0);
      if s.onTimewaitList {
        RelinkTimewait(s);
      } else {
        if s.onRtoIdx >= 0 {
          RemoveFromRtoList(s);
        }
        LinkTimewait(s);
      }
    }

    method RelinkTimewait(s: Stream)
      requires TimewaitOk() && s in streams && s.onTimewaitList
      modifies this`timewaitList
      ensures TimewaitOk() && timewaitList == Without(old(timewaitList), s) + [s]
    {
      ghost var members := set x | x in streams && x.onTimewaitList;
      HoldsWithout(timewaitList, timewaitListCnt, members, s);
      HoldsAdded(Without(timewaitList, s), timewaitListCnt - 1, members - {s}, s);
      assert members - {s} + {s} == members;
      timewaitList := Without(timewaitList, s);
      timewaitList := timewaitList + [s];
    }

    method LinkTimewait(s: Stream)
      requires TimewaitOk() && s in streams && !s.onTimewaitList
      modifies this`timewaitList, this`timewaitListCnt, s`onTimewaitList
      ensures TimewaitOk() && s.onTimewaitList && timewaitList == old(timewaitList) + [s]
    {
      ghost var members := set x | x in streams && x.onTimewaitList;
      HoldsAdded(timewaitList, timewaitListCnt, members, s);
      s.onTimewaitList := true;
      timewaitList := timewaitList + [s];
      timewaitListCnt := timewaitListCnt + 1;
      assert (set x | x in streams && x.onTimewaitList) == members + {s};
    }

    /** RemoveFromTimewaitList; the source asserts that the stream is there. */
    method RemoveFromTimewaitList(s: Stream)
      requires TimewaitOk() && s in streams && s.onTimewaitList
      modifies this`timewaitList, this`timewaitListCnt, s`onTimewaitList
      ensures TimewaitOk() && !s.onTimewaitList && timewaitList == Without(old(timewaitList), s)
    {
      ghost var members := set x | x in streams && x.onTimewaitList;
      HoldsWithout(timewaitList, timewaitListCnt, members, s);
      timewaitList := Without(timewaitList, s);
      s.onTimewaitList := false;
      timewaitListCnt := timewaitListCnt - 1;
      assert (set x | x in streams && x.onTimewaitList) == members - {s};
    }

    /** AddtoTimeoutList; the source asserts that the stream is not there. */
    method AddToTimeoutList(s: Stream)
      requires TimeoutOk() && s in streams && !s.onTimeoutList
      modifies this`timeoutList, this`timeoutListCnt, s`onTimeoutList
      ensures TimeoutOk() && s.onTimeoutList && timeoutList == old(timeoutList) + [s]
    {
      ghost var members := set x | x in streams && x.onTimeoutList;
      HoldsAdded(timeoutList, timeoutListCnt, members, s);
      s.onTimeoutList := true;
      timeoutList := timeoutList + [s];
      timeoutListCnt := timeoutListCnt + 1;
      assert (set x | x in streams && x.onTimeoutList) == members + {s};
    }

    method RemoveFromTimeoutList(s: Stream)
      requires TimeoutOk() && s in streams
      modifies this`timeoutList, this`timeoutListCnt, s`onTimeoutList
      ensures TimeoutOk() && !s.onTimeoutList
      ensures timeoutList == if old(s.onTimeoutList) then Without(old(timeoutList), s) else old(timeoutList)
    {
      if s.onTimeoutList {
        ghost var members := set x | x in streams && x.onTimeoutList;
        HoldsWithout(timeoutList, timeoutListCnt, members, s);
        s.onTimeoutList := false;
        timeoutList := Without(timeoutList, s);
        timeoutListCnt := timeoutListCnt - 1;
        assert (set x | x in streams && x.onTimeoutList) == members - {s};
      }
    }

    /** UpdateTimeoutList: activity moves the stream to the end. */
    method UpdateTimeoutList(s: Stream)
      requires TimeoutOk() && s in streams
      modifies this`timeoutList
      ensures TimeoutOk()
      ensures timeoutList == if s.onTimeoutList then Without(old(timeoutList), s) + [s] else old(timeoutList)
    {
      if s.onTimeoutList {
        ghost var members := set x | x in streams && x.onTimeoutList;
        HoldsWithout(timeoutList, timeoutListCnt, members, s);
        HoldsAdded(Without(timeoutList, s), timeoutListCnt - 1, members - {s}, s);
        assert members - {s} + {s} == members;
        timeoutList := Without(timeoutList, s);
        timeoutList := timeoutList + [s];
      }
    }

    // ---- the life of a stream

    /** A new stream is on no list. */
    method Admit(s: Stream)
      requires Valid() && s !in streams && s.state == LISTEN
      requires !s.onControlList && !s.onSendList && !s.onAckList && !s.onTimewaitList && !s.onTimeoutList &&
        s.onRtoIdx < 0
      modifies this`streams
      ensures Valid() && streams == old(streams) + {s}
    {
      label before:
      streams := streams + {s};
      SameMembers@before(s);
    }

    /** Adding or dropping a stream that is on no list leaves every list as it is. */
    twostate lemma SameMembers(s: Stream)
      requires old(Valid()) && (streams == old(streams) + {s} || streams == old(streams) - {s})
      requires unchanged(this`controlList, this`controlListCnt, this`sendList, this`sendListCnt, this`ackList,
        this`ackListCnt)
      requires unchanged(this`rtoList, this`rtoListCnt, this`rtoNowIdx)
      requires unchanged(this`timewaitList, this`timewaitListCnt, this`timeoutList, this`timeoutListCnt)
      requires unchanged(streams) && unchanged(s)
      requires !s.onControlList && !s.onSendList && !s.onAckList && !s.onTimewaitList && !s.onTimeoutList &&
        s.onRtoIdx < 0
      ensures Valid()
    {
      hide Holds;
      assert (set x | x in streams && x.onControlList) == old(set x | x in streams && x.onControlList);
      assert (set x | x in streams && x.onSendList) == old(set x | x in streams && x.onSendList);
      assert (set x | x in streams && x.onAckList) == old(set x | x in streams && x.onAckList);
      assert (set x | x in streams && x.onTimewaitList) == old(set x | x in streams && x.onTimewaitList);
      assert (set x | x in streams && x.onTimeoutList) == old(set x | x in streams && x.onTimeoutList);
      forall k | 0 <= k <= RTO_HASH
        ensures Holds(rtoList[k], |rtoList[k]|, set x | x in streams && x.onRtoIdx == k)
      {
        assert (set x | x in streams && x.onRtoIdx == k) == old(set x | x in streams && x.onRtoIdx == k);
      }
    }

    /** DestroyTcpStream: the stream leaves every list. */
    method Destroy(s: Stream)
      requires Valid() && s in streams
      modifies this`controlList, this`controlListCnt, this`sendList, this`sendListCnt, this`ackList, this`ackListCnt
      modifies this`rtoList, this`rtoListCnt, this`timewaitList, this`timewaitListCnt, this`timeoutList
      modifies this`timeoutListCnt
      modifies s`onControlList, s`onSendList, s`onAckList, s`onRtoIdx, s`onTimewaitList, s`onTimeoutList, this`streams
      ensures Valid() && streams == old(streams) - {s}
      ensures !s.onControlList && !s.onSendList && !s.onAckList && !s.onTimewaitList && !s.onTimeoutList &&
        s.onRtoIdx < 0
      ensures controlList == if old(s.onControlList) then Without(old(controlList), s) else old(controlList)
      ensures sendList == if old(s.onSendList) then Without(old(sendList), s) else old(sendList)
      ensures ackList == if old(s.onAckList) then Without(old(ackList), s) else old(ackList)
      ensures timewaitList == if old(s.onTimewaitList) then Without(old(timewaitList), s) else old(timewaitList)
      ensures timeoutList == if old(s.onTimeoutList) then Without(old(timeoutList), s) else old(timeoutList)
      ensures old(s.onRtoIdx) < 0 ==> rtoList == old(rtoList)
    {
      hide ControlOk, SendOk, AckOk, RtoOk, TimewaitOk, TimeoutOk, Valid;
      UnlinkAll(s);
      label gone:
      streams := streams - {s};
      SameMembers@gone(s);
    }

    method UnlinkAll(s: Stream)
      requires Valid() && s in streams
      modifies this`controlList, this`controlListCnt, this`sendList, this`sendListCnt, this`ackList, this`ackListCnt
      modifies this`rtoList, this`rtoListCnt, this`timewaitList, this`timewaitListCnt, this`timeoutList
      modifies this`timeoutListCnt
      modifies s`onControlList, s`onSendList, s`onAckList, s`onRtoIdx, s`onTimewaitList, s`onTimeoutList
      ensures Valid()
      ensures !s.onControlList && !s.onSendList && !s.onAckList && !s.onTimewaitList && !s.onTimeoutList &&
        s.onRtoIdx < 0
      ensures controlList == if old(s.onControlList) then Without(old(controlList), s) else old(controlList)
      ensures sendList == if old(s.onSendList) then Without(old(sendList), s) else old(sendList)
      ensures ackList == if old(s.onAckList) then Without(old(ackList), s) else old(ackList)
      ensures timewaitList == if old(s.onTimewaitList) then Without(old(timewaitList), s) else old(timewaitList)
      ensures timeoutList == if old(s.onTimeoutList) then Without(old(timeoutList), s) else old(timeoutList)
      ensures old(s.onRtoIdx) < 0 ==> rtoList == old(rtoList)
    {
      hide ControlOk, SendOk, AckOk, RtoOk, TimewaitOk, TimeoutOk, Apart;
      UnlinkQueues(s);
      UnlinkTimers(s);
    }

    method UnlinkQueues(s: Stream)
      requires ControlOk() && SendOk() && AckOk() && s in streams
      modifies this`controlList, this`controlListCnt, this`sendList, this`sendListCnt, this`ackList, this`ackListCnt
      modifies s`onControlList, s`onSendList, s`onAckList
      ensures ControlOk() && SendOk() && AckOk() && !s.onControlList && !s.onSendList && !s.onAckList
      ensures controlList == if old(s.onControlList) then Without(old(controlList), s) else old(controlList)
      ensures sendList == if old(s.onSendList) then Without(old(sendList), s) else old(sendList)
      ensures ackList == if old(s.onAckList) then Without(old(ackList), s) else old(ackList)
    {
      hide ControlOk, SendOk, AckOk;
      RemoveFromControlList(s);
      RemoveFromSendList(s);
      RemoveFromAckList(s);
    }

    method UnlinkTimers(s: Stream)
      requires RtoOk() && TimewaitOk() && TimeoutOk() && Apart() && s in streams
      modifies this`rtoList, this`rtoListCnt, this`timewaitList, this`timewaitListCnt, this`timeoutList
      modifies this`timeoutListCnt
      modifies s`onRtoIdx, s`onTimewaitList, s`onTimeoutList
      ensures RtoOk() && TimewaitOk() && TimeoutOk() && Apart() && !s.onTimewaitList && !s.onTimeoutList &&
        s.onRtoIdx < 0
      ensures timewaitList == if old(s.onTimewaitList) then Without(old(timewaitList), s) else old(timewaitList)
      ensures timeoutList == if old(s.onTimeoutList) then Without(old(timeoutList), s) else old(timeoutList)
      ensures old(s.onRtoIdx) < 0 ==> rtoList == old(rtoList)
    {
      hide RtoOk, TimewaitOk, TimeoutOk;
      if s.onRtoIdx >= 0 {
        RemoveFromRtoList(s);
      }
      if s.onTimewaitList {
        RemoveFromTimewaitList(s);
      }
      RemoveFromTimeoutList(s);
    }
  }
}
