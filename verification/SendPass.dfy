/** Data: the pass over the send list (src/user_tcp.c:2669-2758). */
module SendPasses {
  import opened Common
  import opened SeqArith
  import opened TcpState
  import opened SchedLists
  import opened Lifecycle
  import opened Sending

  /** What FlushSendbuffer of the Sender model does for one stream: the sizes of the segments it
      tries to send, what it returns if all of them go out (their number, or -3 for a full
      window), and whether it asks for a window probe. */
  datatype FlushPlan = FlushPlan(sizes: seq<nat>, code: int, probe: bool)

  function Sum(sizes: seq<nat>): nat {
    if sizes == [] then 0 else Sum(sizes[..|sizes| - 1]) + sizes[|sizes| - 1]
  }

  /** How many of the segments the device takes. */
  function Fitting(plan: FlushPlan, room: nat): nat {
    Least(|plan.sizes|, room)
  }

  /** The bytes in them. */
  function Bytes(plan: FlushPlan, room: nat): nat {
    Sum(plan.sizes[..Fitting(plan, room)])
  }

  /** The first `n` segments, one behind the other. */
  function Segments(s: Stream, c: Conn, plan: FlushPlan, n: nat): seq<Wire>
    requires n <= |plan.sizes|
  {
    if n == 0 then [] else
      Segments(s, c, plan, n - 1) + [Sent(s, Advanced(c, Sum(plan.sizes[..n - 1])), ACK, plan.sizes[n - 1])]
  }

  /** The stream that has sent them. */
  function Flushed(c: Conn, plan: FlushPlan, n: nat, ts: u32): Conn
    requires n <= |plan.sizes|
  {
    if n == 0 then c else Emitted(c, ACK, Sum(plan.sizes[..n]), ts)
  }

  lemma NothingFlushed(s: Stream, c: Conn, plan: FlushPlan, ts: u32)
    ensures Flushed(c, plan, 0, ts) == c && Segments(s, c, plan, 0) == [] && plan.sizes[..0] == []
  {}

  lemma OneMoreSegment(s: Stream, c: Conn, plan: FlushPlan, n: nat, ts: u32)
    requires n < |plan.sizes|
    ensures Flushed(c, plan, n + 1, ts) == Emitted(Flushed(c, plan, n, ts), ACK, plan.sizes[n], ts)
    ensures Segments(s, c, plan, n + 1) ==
      Segments(s, c, plan, n) + [Sent(s, Flushed(c, plan, n, ts), ACK, plan.sizes[n])]
  {
    hide Wrap, Sent, Emitted, Advanced;
    assert plan.sizes[..n + 1][..n] == plan.sizes[..n];
    assert plan.sizes[..0] == [];
    EmittedTwice(s, c, Sum(plan.sizes[..n]), plan.sizes[n], ts);
  }

  /** Two segments one behind the other count like one. */
  lemma EmittedTwice(s: Stream, c: Conn, a: nat, b: nat, ts: u32)
    ensures Emitted(Emitted(c, ACK, a, ts), ACK, b, ts) == Emitted(c, ACK, a + b, ts)
    ensures Sent(s, Emitted(c, ACK, a, ts), ACK, b) == Sent(s, Advanced(c, a), ACK, b)
    ensures Advanced(c, 0) == c
  {
    WrapWrap(c.num.nxt + a, b);
    NotMoved(c.num.nxt);
    hide Wrap;
  }

  method Flush(tcp: Manager, s: Stream, curTs: u32, plan: FlushPlan) returns (r: int)
    requires tcp.Timers() && s in tcp.streams && !s.onTimewaitList
    modifies tcp`room, tcp`log, tcp`timeoutList, tcp`rtoList, tcp`rtoListCnt, tcp`rtoNowIdx, tcp`rtoNowTs
    modifies s`isFinSent, s`lastActiveTs, s`sndNxt, s`tsRto, s`onRtoIdx
    ensures old(tcp.rtoNowIdx) == 0 ==> tcp.rtoNowIdx == 0
    ensures tcp.Timers() && tcp.room == old(tcp.room) - Fitting(plan, old(tcp.room))
    ensures r == if |plan.sizes| <= old(tcp.room) then plan.code else -2
    ensures Whole(s) == Flushed(old(Whole(s)), plan, Fitting(plan, old(tcp.room)), curTs)
    ensures tcp.log == old(tcp.log) + Segments(s, old(Whole(s)), plan, Fitting(plan, old(tcp.room)))
  {
    hide Manager.Timers, Wrap, Whole, Flushed, Segments, Sent, Emitted;
    var i := 0;
    ghost var c := Whole(s);
    NothingFlushed(s, c, plan, curTs);
    while i < |plan.sizes|
      invariant old(tcp.rtoNowIdx) == 0 ==> tcp.rtoNowIdx == 0
      invariant tcp.Timers() && 0 <= i <= |plan.sizes| && i <= old(tcp.room) && tcp.room == old(tcp.room) - i
      invariant Whole(s) == Flushed(c, plan, i, curTs)
      invariant tcp.log == old(tcp.log) + Segments(s, c, plan, i)
    {
      OneMoreSegment(s, c, plan, i, curTs);
      r := SendTcppkt(tcp, s, curTs, ACK, plan.sizes[i]);
      if r < 0 {
        return;
      }
      i := i + 1;
    }
    r := plan.code;
  }

  /** Data goes out in these states, but not before a control packet of an established stream. */
  predicate Flushes(s: Stream)
    reads s`state, s`onControlList
  {
    (s.state == ESTABLISHED && !s.onControlList) || s.state == CLOSE_WAIT || s.state == FIN_WAIT_1 ||
      s.state == LAST_ACK
  }

  predicate Flushing(c: Conn) {
    (c.view.state == ESTABLISHED && !c.links.controlling) || c.view.state == CLOSE_WAIT ||
      c.view.state == FIN_WAIT_1 || c.view.state == LAST_ACK
  }

  lemma ShowsFlushing(s: Stream)
    ensures Flushing(Whole(s)) == Flushes(s)
  {}

  /** What the attempt to send data answers; it is negative if the stream is to be tried again. */
  function Answer(c: Conn, plan: FlushPlan, room: nat): int {
    if Flushing(c) then (if |plan.sizes| <= room then plan.code else -2)
    else if c.view.state == ESTABLISHED then -1 else 0
  }

  /** The segments that the device takes. */
  function Taken(c: Conn, plan: FlushPlan, room: nat): (n: nat)
    ensures n <= |plan.sizes| && n <= room
  {
    if Flushing(c) then Fitting(plan, room) else 0
  }

  function DataOut(s: Stream, c: Conn, plan: FlushPlan, room: nat): seq<Wire> {
    Segments(s, c, plan, Taken(c, plan, room))
  }

  /** Off the send list; every segment sent carried an acknowledgement. */
  function Unloaded(c: Conn, sent: nat): Conn {
    c.(links := c.links.(sending := false, ackCnt := if c.links.ackCnt > sent then c.links.ackCnt - sent else 0))
  }

  /** The stream after its turn. A window probe is asked for by a flush that came to its end. */
  function DataSent(c: Conn, plan: FlushPlan, room: nat, ts: u32): Conn {
    var d := Flushed(c, plan, Taken(c, plan, room), ts);
    var r := Answer(c, plan, room);
    var e := if r < 0 then d else Resumed(Unloaded(d, r), c.links.acking);
    if Flushing(c) && |plan.sizes| <= room && plan.probe then Owing(e, WACK) else e
  }

  /** A stream sends as many of its segments as the device takes, each behind the one before and with an
      acknowledgement of everything received in order. */
  lemma DataIsProper(s: Stream, c: Conn, plan: FlushPlan, room: nat)
    ensures |DataOut(s, c, plan, room)| == Taken(c, plan, room)
    ensures forall i :: 0 <= i < Taken(c, plan, room) ==> DataOut(s, c, plan, room)[i] == DataPacket(s, c, plan, i)
  {
    hide Segments, DataPacket;
    SegmentsAre(s, c, plan, Taken(c, plan, room));
  }

  function DataPacket(s: Stream, c: Conn, plan: FlushPlan, i: nat): Wire
    requires i < |plan.sizes|
  {
    Wire(s, ACK, Wrap(c.num.nxt + Sum(plan.sizes[..i])), c.view.rcvNxt, plan.sizes[i])
  }

  lemma {:induction false} SegmentsAre(s: Stream, c: Conn, plan: FlushPlan, n: nat)
    requires n <= |plan.sizes|
    ensures |Segments(s, c, plan, n)| == n
    ensures forall i :: 0 <= i < n ==> Segments(s, c, plan, n)[i] == DataPacket(s, c, plan, i)
  {
    if n > 0 {
      SegmentsAre(s, c, plan, n - 1);
      SegmentIs(s, c, plan, n - 1);
    }
    hide Wrap, Sent, Advanced, DataPacket;
  }

  lemma SegmentIs(s: Stream, c: Conn, plan: FlushPlan, i: nat)
    requires i < |plan.sizes|
    ensures Sent(s, Advanced(c, Sum(plan.sizes[..i])), ACK, plan.sizes[i]) == DataPacket(s, c, plan, i)
  {}

  /** The number behind the segments that the device takes. */
  function NextAfter(c: Conn, plan: FlushPlan, room: nat): u32 {
    Wrap(c.num.nxt + if Flushing(c) then Bytes(plan, room) else 0)
  }

  /** ... and `snd_nxt` moves on by exactly their bytes. Nothing else of its state changes, and it leaves
      the send list exactly if the answer is not negative. */
  lemma DataMovesOn(c: Conn, plan: FlushPlan, room: nat, ts: u32)
    ensures var d := DataSent(c, plan, room, ts);
      && d.view == c.view
      && d.num == c.num.(nxt := NextAfter(c, plan, room))
      && (c.links.sending ==> (d.links.sending <==> Answer(c, plan, room) < 0))
  {
    assert plan.sizes[..0] == [];
    NotMoved(c.num.nxt);
    hide Wrap;
  }

  /** Lines 2689-2714 for one stream, which is off the list. */
  method SendData(tcp: Manager, s: Stream, curTs: u32, plan: FlushPlan) returns (r: int)
    requires tcp.Timers() && s in tcp.streams
    modifies tcp`room, tcp`log, tcp`timeoutList, tcp`rtoList, tcp`rtoListCnt, tcp`rtoNowIdx, tcp`rtoNowTs
    modifies s`isFinSent, s`lastActiveTs, s`sndNxt, s`tsRto, s`onRtoIdx
    ensures old(tcp.rtoNowIdx) == 0 ==> tcp.rtoNowIdx == 0
    ensures tcp.Timers() && r == Answer(old(Whole(s)), plan, old(tcp.room))
    ensures Whole(s) == Flushed(old(Whole(s)), plan, Taken(old(Whole(s)), plan, old(tcp.room)), curTs)
    ensures tcp.log == old(tcp.log) + DataOut(s, old(Whole(s)), plan, old(tcp.room))
    ensures tcp.room == old(tcp.room) - Taken(old(Whole(s)), plan, old(tcp.room))
  {
    hide Manager.Timers, Whole, Flushed, Segments, Look;
    DoneIsIdle(tcp, s);
    Shows(s);
    ShowsLinks(s);
    NothingFlushed(s, Whole(s), plan, curTs);
    r := 0;
    if s.state == ESTABLISHED {
      if s.onControlList {
        r := -1;
      } else {
        r := Flush(tcp, s, curTs, plan);
      }
    } else if s.state == CLOSE_WAIT || s.state == FIN_WAIT_1 || s.state == LAST_ACK {
      r := Flush(tcp, s, curTs, plan);
    }
  }

  /** The first stream of the send list: it leaves the list if its data went out, and goes to
      the end of the list if not. */
  method WriteData(tcp: Manager, s: Stream, curTs: u32, plan: FlushPlan) returns (r: int)
    requires tcp.Valid() && tcp.sendList != [] && s == tcp.sendList[0] && s in tcp.streams
    modifies tcp, s
    ensures old(tcp.rtoNowIdx) == 0 ==> tcp.rtoNowIdx == 0
    ensures tcp.Valid() && tcp.streams == old(tcp.streams) && Look(s) == old(Look(s))
    ensures r == Answer(old(Whole(s)), plan, old(tcp.room))
    ensures Whole(s) == DataSent(old(Whole(s)), plan, old(tcp.room), curTs)
    ensures tcp.log == old(tcp.log) + DataOut(s, old(Whole(s)), plan, old(tcp.room))
    ensures tcp.room == old(tcp.room) - if old(Flushes(s)) then Fitting(plan, old(tcp.room)) else 0
    ensures tcp.sendList == if r < 0 then old(tcp.sendList)[1..] + [s] else old(tcp.sendList)[1..]
    ensures r == if !old(Flushes(s)) then (if s.state == ESTABLISHED then -1 else 0)
      else if |plan.sizes| <= old(tcp.room) then plan.code else -2
    ensures s.sndNxt == if old(Flushes(s)) then Wrap(old(s.sndNxt) + Bytes(plan, old(tcp.room))) else old(s.sndNxt)
    ensures s.onSendList == (r < 0)
  {
    hide Manager.Valid, Look, Whole, DataOut, DataSent, Flushing, Flushes, Bytes, Wrap;
    ghost var c, room := Whole(s), tcp.room;
    Shows(s);
    ShowsNumbers(s);
    ShowsLinks(s);
    ShowsFlushing(s);
    NotMoved(s.sndNxt);
    DataMovesOn(c, plan, room, curTs);
    HeadIsListed(tcp);
    r := TakeTurn(tcp, s, curTs, plan);
    Shows(s);
    ShowsNumbers(s);
    ShowsLinks(s);
  }

  lemma HeadIsListed(tcp: Manager)
    requires tcp.Valid()
    ensures tcp.sendList != [] ==> tcp.sendList[0].onSendList
  {
    assert tcp.sendList != [] ==> tcp.sendList[0] in tcp.sendList;
  }

  /** ... with the stream as a value. */
  method TakeTurn(tcp: Manager, s: Stream, curTs: u32, plan: FlushPlan) returns (r: int)
    requires tcp.Valid() && tcp.sendList != [] && s == tcp.sendList[0] && s in tcp.streams
    modifies tcp, s
    ensures old(tcp.rtoNowIdx) == 0 ==> tcp.rtoNowIdx == 0
    ensures tcp.Valid() && tcp.streams == old(tcp.streams) && r == Answer(old(Whole(s)), plan, old(tcp.room))
    ensures Whole(s) == DataSent(old(Whole(s)), plan, old(tcp.room), curTs)
    ensures tcp.log == old(tcp.log) + DataOut(s, old(Whole(s)), plan, old(tcp.room))
    ensures tcp.room == old(tcp.room) - Taken(old(Whole(s)), plan, old(tcp.room))
    ensures tcp.sendList == if r < 0 then old(tcp.sendList)[1..] + [s] else old(tcp.sendList)[1..]
  {
    hide Manager.Queues, Manager.Timers, Whole, DataOut, Flushing, Flushes, Owing, Flushed, Answer, Taken;
    ShowsFlushing(s);
    var probe := Flushes(s) && |plan.sizes| <= tcp.room && plan.probe;
    r := ServeData(tcp, s, curTs, plan);
    if probe {
      EnqueueAck(tcp, s, WACK);
    }
  }

  /** Lines 2684-2746. */
  method ServeData(tcp: Manager, s: Stream, curTs: u32, plan: FlushPlan) returns (r: int)
    requires tcp.Valid() && tcp.sendList != [] && s == tcp.sendList[0] && s in tcp.streams
    modifies tcp`room, tcp`log, tcp`timeoutList, tcp`rtoList, tcp`rtoListCnt, tcp`rtoNowIdx, tcp`rtoNowTs
    modifies tcp`sendList, tcp`sendListCnt, s`onSendList, tcp`controlList, tcp`controlListCnt, s`onControlList
    modifies s`controlListWaiting
    modifies s`isFinSent, s`lastActiveTs, s`sndNxt, s`tsRto, s`onRtoIdx, s`ackCnt
    ensures old(tcp.rtoNowIdx) == 0 ==> tcp.rtoNowIdx == 0
    ensures tcp.Valid() && r == Answer(old(Whole(s)), plan, old(tcp.room))
    ensures tcp.log == old(tcp.log) + DataOut(s, old(Whole(s)), plan, old(tcp.room))
    ensures tcp.room == old(tcp.room) - Taken(old(Whole(s)), plan, old(tcp.room))
    ensures var c := old(Whole(s)); var d := Flushed(c, plan, Taken(c, plan, old(tcp.room)), curTs);
      Whole(s) == if r < 0 then d else Resumed(Unloaded(d, r), c.links.acking)
    ensures tcp.sendList == if r < 0 then old(tcp.sendList)[1..] + [s] else old(tcp.sendList)[1..]
    ensures s.onSendList == (r < 0)
  {
    hide Manager.ControlOk, Manager.SendOk, Manager.AckOk, Manager.Timers, Manager.SendTaken;
    hide Whole, Flushed, DataOut, Resumed, Unloaded, Answer, Taken;
    ShowsLinks(s);
    tcp.TakeSendList(s);
    r := SendData(tcp, s, curTs, plan);
    if r < 0 {
      tcp.ReturnSendList(s);
    } else {
      Finish(tcp, s, r);
    }
  }

  /** Lines 2723-2745: every segment sent carried an acknowledgement. */
  method Finish(tcp: Manager, s: Stream, sent: nat)
    requires tcp.ControlOk() && tcp.AckOk() && tcp.SendTaken(s) && s in tcp.streams
    modifies tcp`sendListCnt, s`onSendList, s`ackCnt, tcp`controlList, tcp`controlListCnt, s`onControlList
    modifies s`controlListWaiting
    ensures tcp.Queues() && !s.onSendList
    ensures s.ackCnt == if old(s.ackCnt) > sent then old(s.ackCnt) - sent else 0
    ensures old(s.controlListWaiting) && !s.onAckList ==> s.onControlList && !s.controlListWaiting
    ensures Whole(s) == Resumed(Unloaded(old(Whole(s)), sent), s.onAckList)
  {
    hide Manager.ControlOk, Manager.SendOk, Manager.AckOk, Manager.SendTaken, Whole, Unloaded, Resumed;
    Unload(tcp, s, sent);
    Resume(tcp, s, s.onAckList);
  }

  method Unload(tcp: Manager, s: Stream, sent: nat)
    requires tcp.SendTaken(s)
    modifies tcp`sendListCnt, s`onSendList, s`ackCnt
    ensures tcp.SendOk() && !s.onSendList && Whole(s) == Unloaded(old(Whole(s)), sent)
    ensures s.ackCnt == if old(s.ackCnt) > sent then old(s.ackCnt) - sent else 0
  {
    hide Manager.SendOk, Manager.SendTaken, Look, NumbersOf, ClockOf, InboxOf, EndingOf, OwnerOf;
    tcp.FinishSendList(s);
    s.ackCnt := if s.ackCnt > sent then s.ackCnt - sent else 0;
  }

  /** The room left once the first `k` streams of the list have had their turn, and what they sent. */
  function DataRoom(list: seq<Stream>, was: map<Stream, Conn>, plans: seq<FlushPlan>, room: nat, k: nat): nat
    requires k <= |list| && k <= |plans|
  {
    if k == 0 then room else
      var left := DataRoom(list, was, plans, room, k - 1);
      if list[k - 1] in was then left - Taken(was[list[k - 1]], plans[k - 1], left) else left
  }

  function DataLog(list: seq<Stream>, was: map<Stream, Conn>, plans: seq<FlushPlan>, room: nat, k: nat): seq<Wire>
    requires k <= |list| && k <= |plans|
  {
    if k == 0 then [] else
      DataLog(list, was, plans, room, k - 1) + if list[k - 1] in was
        then DataOut(list[k - 1], was[list[k - 1]], plans[k - 1], DataRoom(list, was, plans, room, k - 1)) else []
  }

  /** Stream number `j` of the list could not send everything it might. */
  predicate Unsent(list: seq<Stream>, was: map<Stream, Conn>, plans: seq<FlushPlan>, room: nat, j: nat)
    requires j < |list| && j < |plans|
  {
    list[j] in was && Answer(was[list[j]], plans[j], DataRoom(list, was, plans, room, j)) < 0
  }

  predicate NoneUnsent(list: seq<Stream>, was: map<Stream, Conn>, plans: seq<FlushPlan>, room: nat, k: int)
    requires k <= |list| && k <= |plans|
  {
    forall j :: 0 <= j < k ==> !Unsent(list, was, plans, room, j)
  }

  /** The first `k` streams of the list have had their turn, and nothing has happened to the others. */
  ghost predicate DataServed(list: seq<Stream>, k: nat, was: map<Stream, Conn>, plans: seq<FlushPlan>, room: nat,
    ts: u32)
    reads was.Keys
  {
    && k <= |list| && k <= |plans|
    && (forall j :: 0 <= j < k ==> list[j] in was)
    && (forall j :: 0 <= j < k ==>
          Whole(list[j]) == DataSent(was[list[j]], plans[j], DataRoom(list, was, plans, room, j), ts))
    && (forall s :: s in was && s !in list[..k] ==> Whole(s) == was[s])
  }

  lemma OneMoreData(list: seq<Stream>, k: nat, was: map<Stream, Conn>, plans: seq<FlushPlan>, room: nat)
    requires k < |list| && k < |plans| && list[k] in was
    ensures var left := DataRoom(list, was, plans, room, k);
      && DataRoom(list, was, plans, room, k + 1) == left - Taken(was[list[k]], plans[k], left)
      && DataLog(list, was, plans, room, k + 1) ==
        DataLog(list, was, plans, room, k) + DataOut(list[k], was[list[k]], plans[k], left)
      && Unsent(list, was, plans, room, k) == (Answer(was[list[k]], plans[k], left) < 0)
    ensures NoneUnsent(list, was, plans, room, k) && !Unsent(list, was, plans, room, k) ==>
      NoneUnsent(list, was, plans, room, k + 1)
  {
    hide Taken, DataOut, Answer;
  }

  lemma NobodyServed(list: seq<Stream>, was: map<Stream, Conn>, plans: seq<FlushPlan>, room: nat, ts: u32)
    requires was == Wholes(was.Keys)
    ensures DataRoom(list, was, plans, room, 0) == room && DataLog(list, was, plans, room, 0) == []
    ensures |plans| >= |list| ==>
      NoneUnsent(list, was, plans, room, 0) && NoneUnsent(list, was, plans, room, -1)
    ensures DataServed(list, 0, was, plans, room, ts)
  {}

  /** Data changes no state. Each stream served moves on by the bytes that the room left to it takes, and
      no other stream does. */
  lemma DataMoves(list: seq<Stream>, k: nat, was: map<Stream, Conn>, plans: seq<FlushPlan>, room: nat, ts: u32)
    requires DataServed(list, k, was, plans, room, ts)
    ensures forall s :: s in was ==> Look(s) == was[s].view
    ensures forall j :: 0 <= j < k ==>
      list[j].sndNxt == NextAfter(was[list[j]], plans[j], DataRoom(list, was, plans, room, j))
    ensures forall s :: s in was && s !in list[..k] ==> s.sndNxt == was[s].num.nxt
  {
    hide Whole, Look, DataSent, DataRoom, NextAfter;
    forall s | s in was && s !in list[..k]
      ensures s.sndNxt == was[s].num.nxt
    {
      ShowsNumbers(s);
    }
    forall j | 0 <= j < k
      ensures list[j].sndNxt == NextAfter(was[list[j]], plans[j], DataRoom(list, was, plans, room, j))
    {
      ShowsNumbers(list[j]);
      DataMovesOn(was[list[j]], plans[j], DataRoom(list, was, plans, room, j), ts);
    }
    forall s | s in was
      ensures Look(s) == was[s].view
    {
      Shows(s);
      if s in list[..k] {
        var j :| 0 <= j < k && list[j] == s;
        DataMovesOn(was[s], plans[j], DataRoom(list, was, plans, room, j), ts);
      }
    }
  }

  /** One stream of the list. */
  method DataNext(tcp: Manager, s: Stream, curTs: u32, plan: FlushPlan, ghost list: seq<Stream>, ghost k: nat,
    ghost was: map<Stream, Conn>, ghost plans: seq<FlushPlan>, ghost room: nat) returns (r: int)
    requires tcp.Valid() && NoRepeats(list) && k < |list| && s == list[k] && s in was
    requires tcp.sendList == list[k..] && k < |plans| && plan == plans[k] && s in tcp.streams
    requires DataServed(list, k, was, plans, room, curTs) && tcp.room == DataRoom(list, was, plans, room, k)
    modifies tcp, s
    ensures old(tcp.rtoNowIdx) == 0 ==> tcp.rtoNowIdx == 0
    ensures tcp.Valid() && tcp.streams == old(tcp.streams) && (r < 0 <==> Unsent(list, was, plans, room, k))
    ensures tcp.sendList == if r < 0 then list[k + 1..] + [s] else list[k + 1..]
    ensures DataServed(list, k + 1, was, plans, room, curTs) && tcp.room == DataRoom(list, was, plans, room, k + 1)
    ensures tcp.log == old(tcp.log) + DataOut(s, was[s], plan, old(tcp.room))
  {
    hide Manager.Valid, Whole, DataOut, DataSent, DataRoom, Taken, Answer, Unsent, NoneUnsent;
    NotYet(list, k);
    OneFurther(list, k);
    OneMoreData(list, k, was, plans, room);
    r := TakeTurn(tcp, s, curTs, plan);
  }

  /** user_tcp_write_datalist: as many streams as the threshold allows have their turn, from the front, up
      to the first that cannot send everything it may; that one goes to the end, the others that have been
      served leave the list. */
  method WriteDataList(tcp: Manager, curTs: u32, thresh: nat, plans: seq<FlushPlan>) returns (cnt: nat, ghost k: nat)
    requires tcp.Valid() && |plans| >= |tcp.sendList|
    modifies tcp, tcp.streams
    ensures old(tcp.rtoNowIdx) == 0 ==> tcp.rtoNowIdx == 0
    ensures tcp.Valid() && tcp.streams == old(tcp.streams) && Views(tcp.streams) == old(Views(tcp.streams))
    ensures var list, was, room := old(tcp.sendList), old(Wholes(tcp.streams)), old(tcp.room);
      && DataServed(list, k, was, plans, room, curTs)
      && NoneUnsent(list, was, plans, room, k - 1)
      && var last := k > 0 && Unsent(list, was, plans, room, k - 1);
      && (k == |list| || k == thresh || last) && k <= thresh
      && cnt == (if k == |list| || last then k else k + 1)
      && tcp.sendList == (if last then list[k..] + [list[k - 1]] else list[k..])
      && tcp.log == old(tcp.log) + DataLog(list, was, plans, room, k)
      && tcp.room == DataRoom(list, was, plans, room, k)
      && (forall j :: 0 <= j < k ==>
            list[j].sndNxt == NextAfter(was[list[j]], plans[j], DataRoom(list, was, plans, room, j)))
    ensures forall s :: s in old(tcp.streams) && s !in old(tcp.sendList)[..k] ==> s.sndNxt == old(s.sndNxt)
  {
    hide Manager.Queues, Manager.Timers, Whole, DataRoom, DataLog, Look, Unsent, NoneUnsent, DataSent, NextAfter;
    EachNumber(tcp.streams);
    ghost var was := Wholes(tcp.streams);
    EachShows(tcp.streams);
    cnt, k := WriteDatas(tcp, curTs, thresh, plans, was);
    DataMoves(old(tcp.sendList), k, was, plans, old(tcp.room), curTs);
  }

  /** ... with the streams as they were before given as values. */
  method WriteDatas(tcp: Manager, curTs: u32, thresh: nat, plans: seq<FlushPlan>, ghost was: map<Stream, Conn>)
    returns (cnt: nat, ghost k: nat)
    requires tcp.Valid() && |plans| >= |tcp.sendList| && was == Wholes(tcp.streams)
    modifies tcp, tcp.streams
    ensures old(tcp.rtoNowIdx) == 0 ==> tcp.rtoNowIdx == 0
    ensures tcp.Valid() && tcp.streams == old(tcp.streams)
    ensures var list, room := old(tcp.sendList), old(tcp.room);
      && DataServed(list, k, was, plans, room, curTs) && k <= |list|
      && NoneUnsent(list, was, plans, room, k - 1)
      && var last := k > 0 && Unsent(list, was, plans, room, k - 1);
      && (k == |list| || k == thresh || last) && k <= thresh
      && cnt == (if k == |list| || last then k else k + 1)
      && tcp.sendList == (if last then list[k..] + [list[k - 1]] else list[k..])
      && tcp.log == old(tcp.log) + DataLog(list, was, plans, room, k)
      && tcp.room == DataRoom(list, was, plans, room, k)
  {
    hide Manager.Queues, Manager.Timers, Whole, DataOut, DataSent, DataRoom, DataLog, DataServed, Unsent, NoneUnsent;
    ghost var init, streams := tcp.sendList, tcp.streams;
    NobodyServed(init, was, plans, tcp.room, curTs);
    SendersAdmitted(tcp);
    cnt := 0;
    var i, n := 0, |tcp.sendList|;
    while i < n
      invariant old(tcp.rtoNowIdx) == 0 ==> tcp.rtoNowIdx == 0
      invariant 0 <= i <= n == |init| && cnt == i <= thresh && tcp.Valid() && tcp.streams == streams
      invariant tcp.sendList == init[i..] && DataServed(init, i, was, plans, old(tcp.room), curTs)
      invariant NoneUnsent(init, was, plans, old(tcp.room), i) && NoneUnsent(init, was, plans, old(tcp.room), i - 1)
      invariant tcp.log == old(tcp.log) + DataLog(init, was, plans, old(tcp.room), i)
      invariant tcp.room == DataRoom(init, was, plans, old(tcp.room), i)
      decreases n - i
    {
      NotTheLast(init, was, plans, old(tcp.room), i);
      cnt := cnt + 1;
      if cnt > thresh {
        break;
      }
      OneMoreData(init, i, was, plans, old(tcp.room));
      var r := DataNext(tcp, tcp.sendList[0], curTs, plans[i], init, i, was, plans, old(tcp.room));
      i := i + 1;
      if r < 0 {
        break;
      }
    }
    k := i;
    NotTheLast(init, was, plans, old(tcp.room), k);
  }

  lemma NotTheLast(list: seq<Stream>, was: map<Stream, Conn>, plans: seq<FlushPlan>, room: nat, k: nat)
    requires k <= |list| && k <= |plans|
    ensures NoneUnsent(list, was, plans, room, k) && k > 0 ==> !Unsent(list, was, plans, room, k - 1)
  {}

  lemma SendersAdmitted(tcp: Manager)
    requires tcp.Queues()
    ensures NoRepeats(tcp.sendList) && forall s :: s in tcp.sendList ==> s in tcp.streams
  {}
}
