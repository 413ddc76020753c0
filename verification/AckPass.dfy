/** Acknowledgements and window probes: the pass over the acknowledgement list
    (src/user_tcp.c:2760-2870). */
module AckPasses {
  import opened Common
  import opened SeqArith
  import opened TcpState
  import opened SchedLists
  import opened Lifecycle
  import opened Sending

  /** The acknowledgements that a stream still has to send; a window probe is one. */
  ghost function Owed(s: Stream): nat
    reads s`ackCnt, s`isWack
  {
    s.ackCnt + if s.isWack then 1 else 0
  }

  /** The states in which acknowledgements are sent from the list (lines 2784-2788). */
  predicate MayAck(s: State) {
    s == ESTABLISHED || s == CLOSE_WAIT || s == FIN_WAIT_1 || s == FIN_WAIT_2 || s == TIME_WAIT
  }

  /** ... and then only for what has been received (lines 2790-2797). */
  predicate HasToAck(c: Conn) {
    MayAck(c.view.state) && c.inbox.present && SeqLeq(c.view.rcvNxt, c.inbox.edge)
  }

  /** The acknowledgements that the device takes: those owed first, then a window probe. */
  function Acks(s: Stream, c: Conn, room: nat): (out: seq<Wire>)
    ensures |out| <= room
  {
    if HasToAck(c) then Bare(s, c, Least(c.links.ackCnt, room)) + Probes(s, c, room) else []
  }

  function Bare(s: Stream, c: Conn, n: nat): seq<Wire> {
    seq(n, i => Sent(s, c, ACK, 0))
  }

  function Probes(s: Stream, c: Conn, room: nat): seq<Wire> {
    if c.links.isWack && c.links.ackCnt < room then [Sent(s, c, PROBE, 0)] else []
  }

  /** A stream that has sent `n` of the acknowledgements. */
  function Paid(c: Conn, n: nat, ts: u32): Conn
    requires n <= c.links.ackCnt
  {
    if n == 0 then c
    else c.(links := c.links.(ackCnt := c.links.ackCnt - n), clock := c.clock.(active := ts))
  }

  /** ... and its probe, if the device took it. */
  function Probed(c: Conn, room: nat, ts: u32): Conn {
    if c.links.isWack && room > 0
      then c.(links := c.links.(isWack := false), clock := c.clock.(active := ts)) else c
  }

  /** What a stream of the list has become once it has sent what the device takes. One that has nothing
      to acknowledge forgets what it owes. */
  function Tried(c: Conn, room: nat, ts: u32): Conn {
    var n := Least(c.links.ackCnt, room);
    var d := if HasToAck(c) then Probed(Paid(c, n, ts), room - n, ts) else Forgiven(c);
    if Debt(d) == 0 then Quiet(d) else d
  }

  function Forgiven(c: Conn): Conn {
    c.(links := c.links.(ackCnt := 0, isWack := false))
  }

  /** ... and after its turn, with a postponed control packet queued. */
  function Acked(c: Conn, room: nat, ts: u32): Conn {
    Resumed(Tried(c, room, ts), c.links.sending)
  }

  function Debt(c: Conn): nat {
    c.links.ackCnt + if c.links.isWack then 1 else 0
  }

  /** Every acknowledgement owed is sent or still owed, and something is still owed only if the device
      is full; all but a last probe are bare acknowledgements of everything received in order. */
  lemma AcksAreProper(s: Stream, c: Conn, room: nat, ts: u32)
    ensures var out := Acks(s, c, room); var d := Tried(c, room, ts);
      && |out| <= room
      && (if HasToAck(c) then Debt(d) + |out| == Debt(c) && (Debt(d) > 0 ==> |out| == room)
          else out == [] && Debt(d) == 0)
      && (c.links.acking ==> (d.links.acking <==> Debt(d) > 0))
      && (forall i :: 0 <= i < |out| && i < c.links.ackCnt ==> out[i] == Wire(s, ACK, c.num.nxt, c.view.rcvNxt, 0))
      && (forall i :: c.links.ackCnt <= i < |out| ==>
            out[i] == Wire(s, PROBE, Wrap(c.num.nxt - 1), c.view.rcvNxt, 0))
  {
    hide Wrap;
  }

  /** An acknowledgement without data takes no number and changes no state. */
  lemma AckKeeps(c: Conn, room: nat, ts: u32)
    ensures Acked(c, room, ts).view == c.view && Acked(c, room, ts).num == c.num
    ensures Emitted(c, ACK, 0, ts) == Emitted(c, PROBE, 0, ts) == c.(clock := c.clock.(active := ts))
  {
    NotMoved(c.num.nxt);
    hide Wrap;
  }

  /** Lines 2782-2854 for one stream of the list: every acknowledgement owed is either sent or
      still owed, and the stream stays only if the device did not take all of them. */
  method WriteAck(tcp: Manager, s: Stream, curTs: u32)
    requires tcp.Valid() && s in tcp.streams && s.onAckList
    modifies tcp, s
    ensures old(tcp.rtoNowIdx) == 0 ==> tcp.rtoNowIdx == 0
    ensures tcp.Valid() && tcp.streams == old(tcp.streams) && Look(s) == old(Look(s))
    ensures tcp.log == old(tcp.log) + Acks(s, old(Whole(s)), old(tcp.room))
    ensures tcp.room == old(tcp.room) - |Acks(s, old(Whole(s)), old(tcp.room))|
    ensures Whole(s) == Acked(old(Whole(s)), old(tcp.room), curTs)
    ensures old(tcp.room) - tcp.room == if HasToAck(old(Whole(s))) then old(Owed(s)) - Owed(s) else 0
    ensures s.onAckList <==> Owed(s) > 0
    ensures tcp.ackList == if s.onAckList then old(tcp.ackList) else Without(old(tcp.ackList), s)
    ensures s.onAckList ==> tcp.room == 0
  {
    hide Manager.Queues, Manager.Timers, HasToAck, Look, Whole, Acks, Resumed, Tried, Owed, Without;
    ghost var c, room := Whole(s), tcp.room;
    Shows(s);
    ShowsLinks(s);
    ShowsDebt(s);
    AcksAreProper(s, c, room, curTs);
    AckKeeps(c, room, curTs);
    ServeAcks(tcp, s, curTs);
    ShowsLinks(s);
    ShowsDebt(s);
    Resume(tcp, s, s.onSendList);
    Shows(s);
  }

  lemma ShowsDebt(s: Stream)
    ensures Owed(s) == Debt(Whole(s))
  {}

  /** Lines 2809-2845. */
  method ServeAcks(tcp: Manager, s: Stream, curTs: u32)
    requires tcp.Valid() && s in tcp.streams && s.onAckList
    modifies tcp`room, tcp`log, tcp`timeoutList, tcp`rtoList, tcp`rtoListCnt, tcp`rtoNowIdx, tcp`rtoNowTs, tcp`ackList
    modifies tcp`ackListCnt
    modifies s`isFinSent, s`lastActiveTs, s`sndNxt, s`tsRto, s`onRtoIdx, s`ackCnt, s`isWack, s`onAckList
    ensures old(tcp.rtoNowIdx) == 0 ==> tcp.rtoNowIdx == 0
    ensures tcp.Valid() && Whole(s) == Tried(old(Whole(s)), old(tcp.room), curTs)
    ensures tcp.log == old(tcp.log) + Acks(s, old(Whole(s)), old(tcp.room))
    ensures tcp.room == old(tcp.room) - |Acks(s, old(Whole(s)), old(tcp.room))|
    ensures tcp.ackList == if s.onAckList then old(tcp.ackList) else Without(old(tcp.ackList), s)
  {
    hide Manager.Queues, Manager.Timers, Look, Whole, Quiet, Paid, Probed, Bare, Probes, Forgiven;
    ShowsLinks(s);
    var toAck := ToAck(s);
    if toAck {
      PayAcks(tcp, s, curTs);
      ShowsLinks(s);
      if s.ackCnt == 0 && !s.isWack {
        LeaveAcks(tcp, s);
      }
    } else {
      Forgive(s);
      ShowsLinks(s);
      LeaveAcks(tcp, s);
    }
  }

  /** Lines 2841-2842. */
  method Forgive(s: Stream)
    modifies s`ackCnt, s`isWack
    ensures Whole(s) == Forgiven(old(Whole(s))) && s.ackCnt == 0 && !s.isWack
  {
    hide Look, NumbersOf, ClockOf, InboxOf, EndingOf, OwnerOf;
    s.ackCnt, s.isWack := 0, false;
  }

  /** Lines 2782-2807. */
  method ToAck(s: Stream) returns (toAck: bool)
    ensures toAck <==> HasToAck(Whole(s))
  {
    toAck := false;
    if MayAck(s.state) {
      if s.hasRecvbuf {
        if SeqLeq(s.rcvNxt, s.recvEdge) {
          toAck := true;
        }
      }
    }
  }

  /** Lines 2812-2828. */
  method PayAcks(tcp: Manager, s: Stream, curTs: u32)
    requires tcp.Timers() && s in tcp.streams
    modifies tcp`room, tcp`log, tcp`timeoutList, tcp`rtoList, tcp`rtoListCnt, tcp`rtoNowIdx, tcp`rtoNowTs
    modifies s`isFinSent, s`lastActiveTs, s`sndNxt, s`tsRto, s`onRtoIdx, s`ackCnt, s`isWack
    ensures old(tcp.rtoNowIdx) == 0 ==> tcp.rtoNowIdx == 0
    ensures tcp.Timers()
    ensures var c := old(Whole(s)); var n := Least(c.links.ackCnt, old(tcp.room));
      && Whole(s) == Probed(Paid(c, n, curTs), old(tcp.room) - n, curTs)
      && tcp.log == old(tcp.log) + (Bare(s, c, n) + Probes(s, c, old(tcp.room)))
      && tcp.room == old(tcp.room) - |Bare(s, c, n) + Probes(s, c, old(tcp.room))|
  {
    hide Manager.Timers, Whole, Sent, Bare, Paid;
    ghost var c := Whole(s);
    PayOwed(tcp, s, curTs);
    ShowsLinks(s);
    PaidKeeps(s, c, Least(c.links.ackCnt, old(tcp.room)), curTs);
    if s.isWack {
      PayProbe(tcp, s, curTs);
    }
  }

  lemma PaidKeeps(s: Stream, c: Conn, n: nat, ts: u32)
    requires n <= c.links.ackCnt
    ensures var d := Paid(c, n, ts);
      Sent(s, d, ACK, 0) == Sent(s, c, ACK, 0) && Sent(s, d, PROBE, 0) == Sent(s, c, PROBE, 0) &&
      d.links == c.links.(ackCnt := c.links.ackCnt - n)
    ensures |Bare(s, c, n)| == n
  {}

  /** Lines 2812-2818. */
  method PayOwed(tcp: Manager, s: Stream, curTs: u32)
    requires tcp.Timers() && s in tcp.streams
    modifies tcp`room, tcp`log, tcp`timeoutList, tcp`rtoList, tcp`rtoListCnt, tcp`rtoNowIdx, tcp`rtoNowTs
    modifies s`isFinSent, s`lastActiveTs, s`sndNxt, s`tsRto, s`onRtoIdx, s`ackCnt
    ensures old(tcp.rtoNowIdx) == 0 ==> tcp.rtoNowIdx == 0
    ensures tcp.Timers()
    ensures var c := old(Whole(s)); var n := Least(c.links.ackCnt, old(tcp.room));
      Whole(s) == Paid(c, n, curTs) && tcp.log == old(tcp.log) + Bare(s, c, n) && tcp.room == old(tcp.room) - n
  {
    hide Manager.Timers, Whole, Sent, Paid, Bare;
    ghost var c, n := Whole(s), 0;
    ShowsLinks(s);
    NothingPaid(s, c, curTs);
    while s.ackCnt > 0
      invariant old(tcp.rtoNowIdx) == 0 ==> tcp.rtoNowIdx == 0
      invariant tcp.Timers() && n <= old(tcp.room) && n + s.ackCnt == c.links.ackCnt
      invariant Whole(s) == Paid(c, n, curTs) && tcp.room == old(tcp.room) - n
      invariant tcp.log == old(tcp.log) + Bare(s, c, n)
    {
      PaidKeeps(s, c, n, curTs);
      OneMorePaid(s, c, n, curTs);
      var r := PayOne(tcp, s, curTs);
      if r < 0 {
        break;
      }
      n := n + 1;
    }
  }

  lemma NothingPaid(s: Stream, c: Conn, ts: u32)
    ensures Paid(c, 0, ts) == c && Bare(s, c, 0) == []
  {}

  lemma OneMorePaid(s: Stream, c: Conn, n: nat, ts: u32)
    requires n < c.links.ackCnt
    ensures Paid(c, n, ts).links.ackCnt == c.links.ackCnt - n && Paid(Paid(c, n, ts), 1, ts) == Paid(c, n + 1, ts)
    ensures Bare(s, c, n + 1) == Bare(s, c, n) + [Sent(s, c, ACK, 0)]
  {}

  lemma SamePacket(s: Stream, c: Conn, d: Conn)
    ensures c.num == d.num && c.view == d.view ==>
      Sent(s, c, ACK, 0) == Sent(s, d, ACK, 0) && Sent(s, c, PROBE, 0) == Sent(s, d, PROBE, 0)
  {}

  /** Lines 2814-2817. */
  method PayOne(tcp: Manager, s: Stream, curTs: u32) returns (r: int)
    requires tcp.Timers() && s in tcp.streams && s.ackCnt > 0
    modifies tcp`room, tcp`log, tcp`timeoutList, tcp`rtoList, tcp`rtoListCnt, tcp`rtoNowIdx, tcp`rtoNowTs
    modifies s`isFinSent, s`lastActiveTs, s`sndNxt, s`tsRto, s`onRtoIdx, s`ackCnt
    ensures old(tcp.rtoNowIdx) == 0 ==> tcp.rtoNowIdx == 0
    ensures tcp.Timers() && (r < 0 <==> old(tcp.room) == 0) && old(Whole(s)).links.ackCnt == old(s.ackCnt)
    ensures tcp.log == old(tcp.log) + if r < 0 then [] else [Sent(s, old(Whole(s)), ACK, 0)]
    ensures tcp.room == old(tcp.room) - if r < 0 then 0 else 1
    ensures s.ackCnt == old(s.ackCnt) - if r < 0 then 0 else 1
    ensures Whole(s) == if r < 0 then old(Whole(s)) else Paid(old(Whole(s)), 1, curTs)
  {
    hide Manager.Timers, Whole, Emitted, Sent;
    ShowsLinks(s);
    AckKeeps(Whole(s), tcp.room, curTs);
    r := SendTcppkt(tcp, s, curTs, ACK, 0);
    if r >= 0 {
      PaidOne(s);
    }
  }

  method PaidOne(s: Stream)
    requires s.ackCnt > 0
    modifies s`ackCnt
    ensures s.ackCnt == old(s.ackCnt) - 1 && old(Whole(s)).links.ackCnt == old(s.ackCnt)
    ensures Whole(s) == old(Whole(s)).(links := old(Whole(s)).links.(ackCnt := s.ackCnt))
  {
    hide Look, NumbersOf, ClockOf, InboxOf, EndingOf, OwnerOf;
    s.ackCnt := s.ackCnt - 1;
  }

  /** Lines 2820-2828. */
  method PayProbe(tcp: Manager, s: Stream, curTs: u32)
    requires tcp.Timers() && s in tcp.streams && s.isWack
    modifies tcp`room, tcp`log, tcp`timeoutList, tcp`rtoList, tcp`rtoListCnt, tcp`rtoNowIdx, tcp`rtoNowTs
    modifies s`isFinSent, s`lastActiveTs, s`sndNxt, s`tsRto, s`onRtoIdx, s`isWack
    ensures old(tcp.rtoNowIdx) == 0 ==> tcp.rtoNowIdx == 0
    ensures tcp.Timers() && old(Whole(s)).links.isWack
    ensures tcp.log == old(tcp.log) + if old(tcp.room) == 0 then [] else [Sent(s, old(Whole(s)), PROBE, 0)]
    ensures tcp.room == if old(tcp.room) == 0 then 0 else old(tcp.room) - 1
    ensures Whole(s) == Probed(old(Whole(s)), old(tcp.room), curTs)
  {
    hide Manager.Timers, Whole, Emitted, Sent;
    ghost var c := Whole(s);
    ShowsLinks(s);
    SetProbe(s, false);
    SamePacket(s, c, Whole(s));
    AckKeeps(Whole(s), tcp.room, curTs);
    var r := SendTcppkt(tcp, s, curTs, PROBE, 0);
    if r < 0 {
      SetProbe(s, true);
    }
  }

  method SetProbe(s: Stream, wanted: bool)
    modifies s`isWack
    ensures s.isWack == wanted && Whole(s) == old(Whole(s)).(links := old(Whole(s)).links.(isWack := wanted))
  {
    hide Look, NumbersOf, ClockOf, InboxOf, EndingOf, OwnerOf;
    s.isWack := wanted;
  }

  /** The room left once the first `k` streams of the list have had their turn, and what they sent. */
  function AckRoom(list: seq<Stream>, was: map<Stream, Conn>, room: nat, k: nat): nat
    requires k <= |list|
  {
    if k == 0 then room else
      var left := AckRoom(list, was, room, k - 1);
      if list[k - 1] in was then left - |Acks(list[k - 1], was[list[k - 1]], left)| else left
  }

  function AckLog(list: seq<Stream>, was: map<Stream, Conn>, room: nat, k: nat): seq<Wire>
    requires k <= |list|
  {
    if k == 0 then [] else
      AckLog(list, was, room, k - 1) +
      if list[k - 1] in was then Acks(list[k - 1], was[list[k - 1]], AckRoom(list, was, room, k - 1)) else []
  }

  /** ... and those of them that still owe something. */
  function StillOwing(list: seq<Stream>, was: map<Stream, Conn>, room: nat, ts: u32, k: nat): seq<Stream>
    requires k <= |list|
  {
    if k == 0 then [] else
      var s := list[k - 1];
      StillOwing(list, was, room, ts, k - 1) +
      if s in was && Debt(Acked(was[s], AckRoom(list, was, room, k - 1), ts)) > 0 then [s] else []
  }

  /** The first `k` streams of the list have had their turn, and nothing has happened to the others. */
  ghost predicate AcksServed(list: seq<Stream>, k: nat, was: map<Stream, Conn>, room: nat, ts: u32)
    reads was.Keys
  {
    && k <= |list|
    && (forall j :: 0 <= j < k ==>
          list[j] in was && Whole(list[j]) == Acked(was[list[j]], AckRoom(list, was, room, j), ts))
    && (forall s :: s in was && s !in list[..k] ==> Whole(s) == was[s])
  }

  /** One stream of the list: it is put aside if it still owes something. */
  method AckNext(tcp: Manager, list: seq<Stream>, i: nat, curTs: u32, ghost was: map<Stream, Conn>, ghost room: nat)
    requires tcp.Valid() && i < |list| && tcp.ackList == StillOwing(list, was, room, curTs, i) + list[i..]
    requires NoRepeats(list) && list[i] in was
    requires AcksServed(list, i, was, room, curTs) && tcp.room == AckRoom(list, was, room, i)
    modifies tcp, list[i]
    ensures old(tcp.rtoNowIdx) == 0 ==> tcp.rtoNowIdx == 0
    ensures tcp.Valid() && tcp.streams == old(tcp.streams)
    ensures tcp.ackList == StillOwing(list, was, room, curTs, i + 1) + list[i + 1..]
    ensures AcksServed(list, i + 1, was, room, curTs) && tcp.room == AckRoom(list, was, room, i + 1)
    ensures tcp.log == old(tcp.log) + Acks(list[i], was[list[i]], old(tcp.room))
  {
    hide Manager.Queues, Manager.Timers, Owed, Look, Whole, Acks, Acked, HasToAck, AckRoom, AckLog, Without, StillOwing;
    var s := list[i];
    AckMember(tcp, StillOwing(list, was, room, curTs, i), s, list[i + 1..], list[i..]);
    NotYet(list, i);
    OneFurther(list, i);
    OneMoreAcked(list, i, was, room, curTs);
    WriteAck(tcp, s, curTs);
    ShowsDebt(s);
  }

  lemma OneMoreAcked(list: seq<Stream>, i: nat, was: map<Stream, Conn>, room: nat, ts: u32)
    requires i < |list| && list[i] in was
    ensures var s := list[i]; var left := AckRoom(list, was, room, i);
      && AckRoom(list, was, room, i + 1) == left - |Acks(s, was[s], left)|
      && AckLog(list, was, room, i + 1) == AckLog(list, was, room, i) + Acks(s, was[s], left)
      && StillOwing(list, was, room, ts, i + 1) ==
        StillOwing(list, was, room, ts, i) + if Debt(Acked(was[s], left, ts)) > 0 then [s] else []
  {
    hide Acks, Acked;
  }

  lemma NobodyAcked(list: seq<Stream>, was: map<Stream, Conn>, room: nat, ts: u32)
    requires was == Wholes(was.Keys)
    ensures AckRoom(list, was, room, 0) == room && AckLog(list, was, room, 0) == []
    ensures StillOwing(list, was, room, ts, 0) == [] && AcksServed(list, 0, was, room, ts)
  {}

  /** Acknowledgements change no state. */
  lemma AcksKeepViews(list: seq<Stream>, k: nat, was: map<Stream, Conn>, room: nat, ts: u32)
    requires AcksServed(list, k, was, room, ts)
    ensures forall s :: s in was ==> Look(s) == was[s].view
  {
    hide Whole, Look, Acked, AckRoom;
    forall s | s in was
      ensures Look(s) == was[s].view
    {
      Shows(s);
      if s in list[..k] {
        var j :| 0 <= j < k && list[j] == s;
        AckKeeps(was[s], AckRoom(list, was, room, j), ts);
      }
    }
  }

  /** A stream that is left with a debt is among those that stay on the list. */
  lemma NoDebtForgotten(list: seq<Stream>, k: nat, was: map<Stream, Conn>, room: nat, ts: u32)
    requires AcksServed(list, k, was, room, ts)
    ensures forall s :: s in list[..k] ==> (s in StillOwing(list, was, room, ts, k) || Owed(s) == 0)
  {
    hide Whole, Acked, AckRoom, StillOwing, Owed;
    forall s | s in list[..k]
      ensures s in StillOwing(list, was, room, ts, k) || Owed(s) == 0
    {
      var j :| 0 <= j < k && list[j] == s;
      ShowsDebt(s);
      if Owed(s) > 0 {
        OwingStays(list, j, k, was, room, ts);
      }
    }
  }

  lemma {:induction false} OwingStays(list: seq<Stream>, j: nat, k: nat, was: map<Stream, Conn>, room: nat, ts: u32)
    requires j < k <= |list| && list[j] in was && Debt(Acked(was[list[j]], AckRoom(list, was, room, j), ts)) > 0
    ensures list[j] in StillOwing(list, was, room, ts, k)
  {
    hide Acked, AckRoom;
    if j < k - 1 {
      OwingStays(list, j, k - 1, was, room, ts);
    }
  }

  lemma {:induction false} OwingMeansFull(list: seq<Stream>, k: nat, was: map<Stream, Conn>, room: nat, ts: u32)
    requires k <= |list|
    ensures StillOwing(list, was, room, ts, k) != [] ==> AckRoom(list, was, room, k) == 0
  {
    hide Acked, Acks;
    if k > 0 {
      OwingMeansFull(list, k - 1, was, room, ts);
      var s := list[k - 1];
      if s in was {
        AcksAreProper(s, was[s], AckRoom(list, was, room, k - 1), ts);
        AckedDebt(was[s], AckRoom(list, was, room, k - 1), ts);
      }
    }
  }

  lemma AckedDebt(c: Conn, room: nat, ts: u32)
    ensures Debt(Acked(c, room, ts)) == Debt(Tried(c, room, ts))
  {}

  /** user_tcp_write_acklist: as many streams as the threshold allows have their turn, from the front;
      whoever still owes something stays on the list, in the same order, before the others. */
  method WriteAckList(tcp: Manager, curTs: u32, thresh: nat) returns (cnt: nat)
    requires tcp.Valid()
    modifies tcp, tcp.streams
    ensures old(tcp.rtoNowIdx) == 0 ==> tcp.rtoNowIdx == 0
    ensures tcp.Valid() && tcp.streams == old(tcp.streams) && Views(tcp.streams) == old(Views(tcp.streams))
    ensures var list, was, room := old(tcp.ackList), old(Wholes(tcp.streams)), old(tcp.room);
      var k := Least(thresh, |list|);
      && cnt == (if k == |list| then k else k + 1)
      && AcksServed(list, k, was, room, curTs)
      && tcp.log == old(tcp.log) + AckLog(list, was, room, k) && tcp.room == AckRoom(list, was, room, k)
      && tcp.ackList == StillOwing(list, was, room, curTs, k) + list[k..]
    ensures forall s :: s in old(tcp.ackList) && s !in tcp.ackList ==> Owed(s) == 0
    ensures thresh >= |old(tcp.ackList)| ==> tcp.ackList == [] || tcp.room == 0
  {
    hide Manager.Queues, Manager.Timers, Whole, Owed, AckRoom, AckLog, Look, AcksServed, StillOwing;
    ghost var was := Wholes(tcp.streams);
    EachShows(tcp.streams);
    cnt := WriteAcks(tcp, curTs, thresh, was);
    ghost var list := old(tcp.ackList);
    AcksKeepViews(list, Least(thresh, |list|), was, old(tcp.room), curTs);
    NoDebtForgotten(list, Least(thresh, |list|), was, old(tcp.room), curTs);
    OwingMeansFull(list, Least(thresh, |list|), was, old(tcp.room), curTs);
  }

  /** ... with the streams as they were before given as values. */
  method WriteAcks(tcp: Manager, curTs: u32, thresh: nat, ghost was: map<Stream, Conn>) returns (cnt: nat)
    requires tcp.Valid() && was == Wholes(tcp.streams)
    modifies tcp, tcp.streams
    ensures old(tcp.rtoNowIdx) == 0 ==> tcp.rtoNowIdx == 0
    ensures tcp.Valid() && tcp.streams == old(tcp.streams)
    ensures var list, room := old(tcp.ackList), old(tcp.room); var k := Least(thresh, |list|);
      && cnt == (if k == |list| then k else k + 1)
      && AcksServed(list, k, was, room, curTs)
      && tcp.log == old(tcp.log) + AckLog(list, was, room, k) && tcp.room == AckRoom(list, was, room, k)
      && tcp.ackList == StillOwing(list, was, room, curTs, k) + list[k..]
  {
    hide Manager.Queues, Manager.Timers, Acks, Acked, Whole, AckRoom, AckLog, Look, AcksServed, StillOwing;
    ghost var streams := tcp.streams;
    NobodyAcked(tcp.ackList, was, tcp.room, curTs);
    AcksAdmitted(tcp);
    var list := tcp.ackList;
    var i := 0;
    cnt := 0;
    while i < |list|
      invariant old(tcp.rtoNowIdx) == 0 ==> tcp.rtoNowIdx == 0
      invariant 0 <= i <= |list| && i <= thresh && cnt == i && tcp.Valid() && tcp.streams == streams
      invariant tcp.ackList == StillOwing(list, was, old(tcp.room), curTs, i) + list[i..]
      invariant AcksServed(list, i, was, old(tcp.room), curTs) && tcp.room == AckRoom(list, was, old(tcp.room), i)
      invariant tcp.log == old(tcp.log) + AckLog(list, was, old(tcp.room), i)
      decreases |list| - i
    {
      cnt := cnt + 1;
      if cnt > thresh {
        break;
      }
      OneMoreAcked(list, i, was, old(tcp.room), curTs);
      AckNext(tcp, list, i, curTs, was, old(tcp.room));
      i := i + 1;
    }
  }

  lemma AcksAdmitted(tcp: Manager)
    requires tcp.Queues()
    ensures NoRepeats(tcp.ackList) && forall s :: s in tcp.ackList ==> s in tcp.streams
  {}

  lemma AckMember(tcp: Manager, kept: seq<Stream>, s: Stream, rest: seq<Stream>, tail: seq<Stream>)
    requires tcp.Queues() && tail == [s] + rest && tcp.ackList == kept + tail
    ensures s in tcp.streams && s.onAckList && Without(tcp.ackList, s) == kept + rest
    ensures tcp.ackList == kept + [s] + rest
  {
    var list := tcp.ackList;
    assert list[|kept|] == s;
    assert s in list;
    forall k | 0 <= k < |kept|
      ensures kept[k] != s
    {
      assert list[k] == kept[k];
    }
    assert list == kept + [s] + rest;
    WithoutMiddle(kept, s, rest);
  }
}
