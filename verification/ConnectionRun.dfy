/** Whole runs of the stack: segments, requests of the applications, passes of the list writers and
    the timers, in any order and number, from the empty stack on. */
module Runs {
  import opened Common
  import opened SeqArith
  import opened TcpState
  import opened SchedLists
  import opened Lifecycle
  import opened AckPasses
  import opened ControlPasses
  import opened Scheduling
  import opened Sending
  import opened SendPasses
  import opened Stacks
  import opened Connections

  /** What can happen. A stream is named by its number in the order of creation; what is asked of a
      stream that does not exist, or does no longer, does nothing. */
  datatype Event =
    | Open(iss: u32, irs: u32)
    | Segment(id: nat, p: Packet, d: DataPath, env: Env)
    | Attach(id: nat, socket: bool, socketMap: bool)
    | Write(id: nat)
    | Close(id: nat)
    | CloseDrain(id: nat, edge: u32)
    | ResetRequest(id: nat)
    | Discard(id: nat)
    | ControlPass(curTs: u32, thresh: nat)
    | AckPass(curTs: u32, thresh: nat)
    | DataPass(curTs: u32, thresh: nat, plans: seq<FlushPlan>)
    | RtoScan(curTs: u32, limit: int)
    | TimewaitScan(curTs: u32, limit: int)
    | IdleScan(curTs: u32, limit: int)
    | Room(packets: nat)

  // ---- runs as values

  /** What one event may do to stream number `k`. */
  ghost predicate StepOne(k: nat, v: View, w: View, e: Event) {
    match e
    case Segment(id, p, d, _) => if id == k then OnSegment(v, w, p, d) else w == v
    case Close(id) => w == v || (id == k && AsksClose(v, w))
    case CloseDrain(id, _) => w == v || (id == k && v.request.onCloseq && BeginsClose(v, w))
    case ResetRequest(id) => if id == k then MayClose(v, w) else w == v
    case ControlPass(_, _) => MaySendFin(v, w, true)
    case RtoScan(_, _) => MayClose(v, w)
    case TimewaitScan(_, _) => MayClose(v, w)
    case IdleScan(_, _) => MayClose(v, w)
    case _ => w == v
  }

  /** A new stream: nothing is known of any FIN or close. */
  ghost predicate New(v: View) {
    && v.state == LISTEN && !v.finSent && !v.finAcked && !v.peerFin
    && v.request == CloseRequest(false, false, false)
  }

  ghost predicate Step(v: seq<View>, w: seq<View>, e: Event) {
    && |v| <= |w|
    && (forall k :: 0 <= k < |v| ==> StepOne(k, v[k], w[k], e))
    && (forall k :: |v| <= k < |w| ==> New(w[k]))
  }

  /** `trace[i][k]` is stream number `k` after the first `i` events. */
  ghost predicate Run(trace: seq<seq<View>>, events: seq<Event>) {
    && |trace| == |events| + 1 && trace[0] == []
    && forall i :: 0 <= i < |events| ==> Step(trace[i], trace[i + 1], events[i])
  }

  lemma {:induction false} StreamsStay(trace: seq<seq<View>>, events: seq<Event>, i: nat, j: nat)
    requires Run(trace, events) && i <= j < |trace|
    ensures |trace[i]| <= |trace[j]|
    decreases j
  {
    if i < j {
      StreamsStay(trace, events, i, j - 1);
      assert Step(trace[j - 1], trace[j], events[j - 1]);
    }
  }

  // ---- the state only rises

  /** The states in the order in which a connection can go through them. */
  function Rank(s: State): nat {
    match s
    case LISTEN => 0
    case SYN_SENT => 1
    case SYN_RCVD => 2
    case ESTABLISHED => 3
    case CLOSE_WAIT => 4
    case LAST_ACK => 5
    case FIN_WAIT_1 => 6
    case FIN_WAIT_2 => 7
    case CLOSING => 8
    case TIME_WAIT => 9
    case CLOSED => 10
  }

  /** Every event takes at most one arc of the diagram, and the arcs lead upwards. */
  lemma StepIsArc(k: nat, v: View, w: View, e: Event)
    requires StepOne(k, v, w, e)
    ensures Arc(v.state, w.state) && Rank(v.state) <= Rank(w.state)
  {}

  lemma {:induction false} RankRises(trace: seq<seq<View>>, events: seq<Event>, k: nat, i: nat, j: nat)
    requires Run(trace, events) && i <= j < |trace| && k < |trace[i]|
    ensures k < |trace[j]| && Rank(trace[i][k].state) <= Rank(trace[j][k].state)
    decreases j
  {
    StreamsStay(trace, events, i, j);
    if i < j {
      RankRises(trace, events, k, i, j - 1);
      assert Step(trace[j - 1], trace[j], events[j - 1]);
      StepIsArc(k, trace[j - 1][k], trace[j][k], events[j - 1]);
    }
  }

  /** The handler of SYN_SENT is never entered: only passive opens exist. */
  lemma {:induction false} NeverSynSent(trace: seq<seq<View>>, events: seq<Event>, k: nat, j: nat)
    requires Run(trace, events) && j < |trace| && k < |trace[j]|
    ensures trace[j][k].state != SYN_SENT
    decreases j
  {
    if j > 0 {
      assert Step(trace[j - 1], trace[j], events[j - 1]);
      if k < |trace[j - 1]| {
        NeverSynSent(trace, events, k, j - 1);
        StepIsArc(k, trace[j - 1][k], trace[j][k], events[j - 1]);
      }
    }
  }

  // ---- a close begins once

  /** A request to close waits only while nothing has come of it yet, and no FIN without a request. */
  ghost predicate ClosesOnce(v: View) {
    var r := v.request;
    && (r.onCloseq || r.onCloseqInt ==> r.closed && !v.finSent && !Closing(v.state))
    && (v.finSent || Closing(v.state) ==> r.closed) && !(r.onCloseq && r.onCloseqInt)
  }

  lemma StepClosesOnce(k: nat, v: View, w: View, e: Event)
    requires ClosesOnce(v) && StepOne(k, v, w, e)
    ensures ClosesOnce(w) && (v.request.onCloseqInt ==> w.request.onCloseqInt)
    ensures v.finSent ==> w.finSent && w.fss == v.fss
    ensures w.finSent && !v.finSent ==> w.fss == v.fss
  {}

  lemma {:induction false} RunsCloseOnce(trace: seq<seq<View>>, events: seq<Event>, k: nat, j: nat)
    requires Run(trace, events) && j < |trace| && k < |trace[j]|
    ensures ClosesOnce(trace[j][k])
    decreases j
  {
    if j > 0 {
      assert Step(trace[j - 1], trace[j], events[j - 1]);
      if k < |trace[j - 1]| {
        RunsCloseOnce(trace, events, k, j - 1);
        StepClosesOnce(k, trace[j - 1][k], trace[j][k], events[j - 1]);
      }
    }
  }

  /** Once our FIN is out its number never changes: a second request to close has no effect. */
  lemma {:induction false} FinKeepsNumber(trace: seq<seq<View>>, events: seq<Event>, k: nat, i: nat, j: nat)
    requires Run(trace, events) && i <= j < |trace| && k < |trace[i]| && trace[i][k].finSent
    ensures k < |trace[j]| && trace[j][k].finSent && trace[j][k].fss == trace[i][k].fss
    decreases j
  {
    StreamsStay(trace, events, i, j);
    if i < j {
      FinKeepsNumber(trace, events, k, i, j - 1);
      StreamsStay(trace, events, i, j - 1);
      assert Step(trace[j - 1], trace[j], events[j - 1]);
      RunsCloseOnce(trace, events, k, j - 1);
      StepClosesOnce(k, trace[j - 1][k], trace[j][k], events[j - 1]);
    }
  }

  /** A close that is put aside (line 2278 of src/user_tcp.c) stays put aside, since that queue is never
      drained: on no run does the stream send a FIN or come into a closing state afterwards. */
  lemma {:induction false} PutAsideIsLost(trace: seq<seq<View>>, events: seq<Event>, k: nat, i: nat, j: nat)
    requires Run(trace, events) && i <= j < |trace| && k < |trace[i]| && trace[i][k].request.onCloseqInt
    ensures k < |trace[j]| && trace[j][k].request.onCloseqInt
    ensures !trace[j][k].finSent && !Closing(trace[j][k].state)
    decreases j
  {
    StreamsStay(trace, events, i, j);
    RunsCloseOnce(trace, events, k, j);
    if i < j {
      PutAsideIsLost(trace, events, k, i, j - 1);
      assert Step(trace[j - 1], trace[j], events[j - 1]);
      RunsCloseOnce(trace, events, k, j - 1);
      StepClosesOnce(k, trace[j - 1][k], trace[j][k], events[j - 1]);
    }
  }

  // ---- what the marks stand for

  /** At event `i` our FIN goes out for the first time, in a control packet. */
  ghost predicate FinGoesOut(trace: seq<seq<View>>, events: seq<Event>, k: nat, i: nat) {
    && i < |events| && i + 1 < |trace| && k < |trace[i]| && k < |trace[i + 1]|
    && events[i].ControlPass? && FinState(trace[i][k].state) && !trace[i][k].finSent && trace[i + 1][k].finSent
  }

  /** Event `i` is a segment for the stream that acknowledges the FIN, sent before, at `fss + 1`. */
  ghost predicate FinIsAcked(trace: seq<seq<View>>, events: seq<Event>, k: nat, i: nat) {
    && i < |events| && i < |trace| && k < |trace[i]|
    && events[i].Segment? && events[i].id == k
    && events[i].p.ack && events[i].p.ackSeq == Wrap(trace[i][k].fss + 1) && trace[i][k].finSent
  }

  /** Event `i` is a segment for the stream that carries the peer's FIN at exactly the number awaited
      when it is looked at: `rcv_nxt`, moved on by the payload of the same segment. */
  ghost predicate FinComesIn(trace: seq<seq<View>>, events: seq<Event>, k: nat, i: nat) {
    && i < |events| && i + 1 < |trace| && k < |trace[i]| && k < |trace[i + 1]|
    && events[i].Segment? && events[i].id == k
    && events[i].p.fin && events[i].p.End() == Awaited(events[i].p, trace[i][k].rcvNxt, events[i].d)
    && trace[i + 1][k].rcvNxt == Wrap(events[i].p.End() + 1)
    && !trace[i][k].peerFin && trace[i + 1][k].peerFin
  }

  lemma {:induction false} SentHasCause(trace: seq<seq<View>>, events: seq<Event>, k: nat, j: nat) returns (i: nat)
    requires Run(trace, events) && j < |trace| && k < |trace[j]| && trace[j][k].finSent
    ensures i < j && FinGoesOut(trace, events, k, i)
    decreases j
  {
    assert Step(trace[j - 1], trace[j], events[j - 1]);
    if k < |trace[j - 1]| && trace[j - 1][k].finSent {
      i := SentHasCause(trace, events, k, j - 1);
    } else {
      assert k < |trace[j - 1]| ==> StepOne(k, trace[j - 1][k], trace[j][k], events[j - 1]);
      i := j - 1;
    }
  }

  lemma {:induction false} AckedHasCause(trace: seq<seq<View>>, events: seq<Event>, k: nat, j: nat)
    returns (i: nat, m: nat)
    requires Run(trace, events) && j < |trace| && k < |trace[j]| && trace[j][k].finAcked
    ensures i < m < j && FinGoesOut(trace, events, k, i) && FinIsAcked(trace, events, k, m)
    ensures trace[m][k].fss == trace[i][k].fss
    decreases j
  {
    assert Step(trace[j - 1], trace[j], events[j - 1]);
    assert k < |trace[j - 1]| ==> StepOne(k, trace[j - 1][k], trace[j][k], events[j - 1]);
    if trace[j - 1][k].finAcked {
      i, m := AckedHasCause(trace, events, k, j - 1);
    } else {
      m := j - 1;
      i := SentHasCause(trace, events, k, m);
      SameNumber(trace, events, k, i, m);
    }
  }

  /** The number acknowledged is the one that our FIN carried (line 586 of src/user_tcp.c). */
  lemma SameNumber(trace: seq<seq<View>>, events: seq<Event>, k: nat, i: nat, m: nat)
    requires Run(trace, events) && i < m < |trace| && FinGoesOut(trace, events, k, i)
    ensures k < |trace[m]| && trace[m][k].fss == trace[i][k].fss
  {
    assert Step(trace[i], trace[i + 1], events[i]);
    RunsCloseOnce(trace, events, k, i);
    StepClosesOnce(k, trace[i][k], trace[i + 1][k], events[i]);
    FinKeepsNumber(trace, events, k, i + 1, m);
  }

  lemma {:induction false} PeerHasCause(trace: seq<seq<View>>, events: seq<Event>, k: nat, j: nat) returns (q: nat)
    requires Run(trace, events) && j < |trace| && k < |trace[j]| && trace[j][k].peerFin
    ensures q < j && FinComesIn(trace, events, k, q)
    decreases j
  {
    assert Step(trace[j - 1], trace[j], events[j - 1]);
    assert k < |trace[j - 1]| ==> StepOne(k, trace[j - 1][k], trace[j][k], events[j - 1]);
    if trace[j - 1][k].peerFin {
      q := PeerHasCause(trace, events, k, j - 1);
    } else {
      q := j - 1;
    }
  }

  /** The states that stand for a FIN have its mark. */
  lemma {:induction false} StatesHaveMarks(trace: seq<seq<View>>, events: seq<Event>, k: nat, j: nat)
    requires Run(trace, events) && j < |trace| && k < |trace[j]|
    ensures trace[j][k].state == FIN_WAIT_2 || trace[j][k].state == TIME_WAIT ==> trace[j][k].finAcked
    ensures trace[j][k].state == CLOSING || trace[j][k].state == TIME_WAIT ==> trace[j][k].peerFin
    decreases j
  {
    if j > 0 {
      assert Step(trace[j - 1], trace[j], events[j - 1]);
      if k < |trace[j - 1]| {
        StatesHaveMarks(trace, events, k, j - 1);
        assert StepOne(k, trace[j - 1][k], trace[j][k], events[j - 1]);
      }
    }
  }

  /** Section 3.3.2 of RFC 9293: a connection is in TIME_WAIT only after our FIN went out, then a
      segment acknowledged the number behind it, and a segment brought the peer's FIN at exactly the
      number awaited. */
  lemma TimeWaitIsEarned(trace: seq<seq<View>>, events: seq<Event>, k: nat, j: nat) returns (i: nat, m: nat, q: nat)
    requires Run(trace, events) && j < |trace| && k < |trace[j]| && trace[j][k].state == TIME_WAIT
    ensures i < m < j && FinGoesOut(trace, events, k, i) && FinIsAcked(trace, events, k, m)
    ensures trace[m][k].fss == trace[i][k].fss
    ensures q < j && FinComesIn(trace, events, k, q)
  {
    StatesHaveMarks(trace, events, k, j);
    i, m := AckedHasCause(trace, events, k, j);
    q := PeerHasCause(trace, events, k, j);
  }

  // ---- worlds

  /** A stream, and whether the flow table has it. */
  datatype Seat = Seat(conn: Conn, here: bool)

  datatype World = World(seats: seq<Seat>, stack: Stack)

  ghost function SeatsOf(streams: set<Stream>, all: seq<Stream>): (seats: seq<Seat>)
    reads all
    ensures |seats| == |all|
    ensures forall k :: 0 <= k < |all| ==> seats[k] == Seat(Whole(all[k]), all[k] in streams)
  {
    seq(|all|, k requires 0 <= k < |all| reads all => Seat(Whole(all[k]), all[k] in streams))
  }

  ghost function WorldOf(tcp: Manager, all: seq<Stream>): World
    reads tcp, tcp.streams, all
  {
    World(SeatsOf(tcp.streams, all), StackOf(tcp, all))
  }

  /** CreateTcpStream and user_tcp_passive_open. */
  ghost predicate NewSeat(a: Seat, iss: u32, irs: u32) {
    && a.here && New(a.conn.view) && a.conn.view.rcvNxt == irs && a.conn.num == Numbers(iss, iss)
    && a.conn.iss == iss && a.conn.irs == irs && a.conn.links == Links(false, false, false, false, 0, false)
    && !a.conn.ending.reset && !a.conn.clock.timed && a.conn.clock.nrtx == 0
    && a.conn.inbox == Inbox(true, Wrap(irs + 1))
  }

  /** One event changes stream number `k`, which is in the flow table, from `c` to `d`; `here` says whether it
      still is there. */
  ghost predicate ConnStep(k: nat, c: Conn, d: Conn, here: bool, e: Event) {
    match e
    case Segment(id, p, dp, env) =>
      if id == k then d == SegmentTo(c, p, dp, env) && here == !Destroys(c, p, env) else d == c && here
    case Attach(id, socket, held) =>
      here && d == if id == k then c.(owner := c.owner.(socket := socket, socketMap := held)) else c
    case Write(id) => here && d == if id == k then Loaded(c.(owner := c.owner.(sndbuf := true))) else c
    case Close(id) => here && d == if id == k then GivenUpBy(c) else c
    case CloseDrain(id, edge) =>
      if id == k && c.view.request.onCloseq
        then d == CloseTo(c, edge) && here == !(c.ending.reset && c.view.state != CLOSED) else d == c && here
    case ResetRequest(id) =>
      if id == k then d == ResetTo(c) && here == !(c.ending.reset && c.view.state != CLOSED) else d == c && here
    case Discard(id) =>
      if id == k && c.view.state == CLOSED && c.view.request.closed then d == Off(c) && !here else d == c && here
    case ControlPass(ts, _) =>
      || (d == Served(c, ts) && here == (c.view.state != CLOSED))
      || ((d == c || d == Rewound(c)) && here)
    case AckPass(ts, _) => here && (d == c || exists room: nat :: d == Acked(c, room, ts))
    case DataPass(ts, _, _) => here && (d == c || exists plan: FlushPlan, room: nat :: d == DataSent(c, plan, room, ts))
    case RtoScan(_, _) => (d.view == c.view && here) || ScannedOne(c, d, here, true)
    case TimewaitScan(_, _) => (d == c && here) || (d == Off(Over(c, ACTIVE_CLOSE)) && !here)
    case IdleScan(_, _) => (d == c && here) || (d == Idled(c) && here == c.owner.socketMap)
    case Open(_, _) => d == c && here
    case Room(_) => d == c && here
  }

  ghost predicate SeatStep(k: nat, a: Seat, b: Seat, e: Event) {
    if a.here then ConnStep(k, a.conn, b.conn, b.here, e) else b == a
  }

  /** Packets go out in the passes of the list writers only, and every pass and check does all that it should. */
  ghost predicate StackStep(a: Stack, b: Stack, e: Event) {
    match e
    case ControlPass(ts, thresh) => exists k: nat :: ControlDone(a, b, ts, thresh, k)
    case AckPass(ts, thresh) => AcksDone(a, b, ts, Least(thresh, |a.acks|))
    case DataPass(ts, thresh, plans) =>
      if |plans| < |a.data| then Silent(a, b) else exists k: nat :: DataDone(a, b, ts, thresh, plans, k)
    case RtoScan(ts, limit) => ScanDone(a, b, ts, limit)
    case TimewaitScan(ts, limit) => exists k: nat :: SweepDone(a, b, ts, limit, k)
    case IdleScan(ts, limit) => exists k: nat :: IdleDone(a, b, ts, limit, k)
    case Room(packets) => b.room == packets && b.log == a.log
    case _ => Silent(a, b)
  }

  ghost predicate Follows(a: World, b: World, e: Event) {
    && |b.seats| == |a.seats| + (if e.Open? then 1 else 0)
    && (forall k :: 0 <= k < |a.seats| ==> SeatStep(k, a.seats[k], b.seats[k], e))
    && (e.Open? ==> NewSeat(b.seats[|a.seats|], e.iss, e.irs))
    && (StackStep(a.stack, b.stack, e) || Halts(a, e))
  }

  /** The source does not survive the event: a segment at which it stops, or a scan that is due and meets a
      failing stream among those that it may handle. */
  ghost predicate Halts(w: World, e: Event) {
    match e
    case Segment(id, p, _, env) => id < |w.seats| && w.seats[id].here && Stops(w.seats[id].conn, p, env)
    case RtoScan(curTs, limit) => ScanFails(w.stack, curTs, limit)
    case _ => false
  }

  ghost function ViewsOf(w: World): (views: seq<View>)
    ensures |views| == |w.seats| && forall k :: 0 <= k < |views| ==> views[k] == w.seats[k].conn.view
  {
    seq(|w.seats|, k requires 0 <= k < |w.seats| => w.seats[k].conn.view)
  }

  /** What happens to a stream is a step of its life. */
  lemma ConnStepIsStep(k: nat, c: Conn, d: Conn, here: bool, e: Event)
    requires ConnStep(k, c, d, here, e)
    ensures StepOne(k, c.view, d.view, e)
  {
    hide OnSegment, SegmentTo, Destroys, MayClose, MaySendFin, BeginsClose, AsksClose, ScannedOne, DataSent, Acked;
    hide Served, Rewound, CloseTo, ResetTo, GivenUpBy, Idled, RunOutOnce;
    ClosesOrNot(c.view);
    match e
    case Segment(id, p, dp, env) => SegmentMeans(c, p, dp, env);
    case Close(id) => GivingUpMeans(c);
    case CloseDrain(id, edge) => CloseMeans(c, edge);
    case ResetRequest(id) => ResetRequestMeans(c);
    case ControlPass(ts, _) => ControlIsStep(c, ts);
    case AckPass(ts, _) =>
      if d != c {
        var room: nat :| d == Acked(c, room, ts);
        AckKeeps(c, room, ts);
      }
    case DataPass(ts, _, _) =>
      if d != c {
        var plan: FlushPlan, room: nat :| d == DataSent(c, plan, room, ts);
        DataMovesOn(c, plan, room, ts);
      }
    case RtoScan(_, _) =>
      if ScannedOne(c, d, here, true) {
        ScanClosesIff(c, d, here, true);
      }
    case IdleScan(_, _) => IdledView(c);
    case _ =>
  }

  lemma ControlIsStep(c: Conn, ts: u32)
    ensures MaySendFin(c.view, Served(c, ts).view, true) && MaySendFin(c.view, Rewound(c).view, true)
    ensures MaySendFin(c.view, c.view, true)
  {}

  lemma IdledView(c: Conn)
    ensures Idled(c).view == c.view.(state := CLOSED)
  {}

  lemma StepOfNothing(k: nat, v: View, e: Event)
    ensures StepOne(k, v, v, e)
  {
    if e.Segment? {
      PlainIsLegal(v, v, e.p, e.d);
    }
  }

  lemma FollowsIsStep(a: World, b: World, e: Event)
    requires Follows(a, b, e)
    ensures Step(ViewsOf(a), ViewsOf(b), e)
  {
    hide ConnStep, StepOne, OnSegment;
    forall k | 0 <= k < |a.seats|
      ensures StepOne(k, a.seats[k].conn.view, b.seats[k].conn.view, e)
    {
      assert SeatStep(k, a.seats[k], b.seats[k], e);
      if a.seats[k].here {
        ConnStepIsStep(k, a.seats[k].conn, b.seats[k].conn, b.seats[k].here, e);
      } else {
        StepOfNothing(k, a.seats[k].conn.view, e);
      }
    }
  }

  /** A stream leaves the flow table only once it is closed, or while its own SYN is unanswered. */
  lemma OnlyClosedLeave(k: nat, a: Seat, b: Seat, e: Event)
    requires SeatStep(k, a, b, e) && a.here && !b.here
    ensures b.conn.view.state == CLOSED || (e.Segment? && a.conn.view.state == SYN_SENT)
  {
    hide OnSegment, SegmentTo, Destroys, ScannedOne, DataSent, Acked, CloseTo, ResetTo, Idled;
    var c, d := a.conn, b.conn;
    match e
    case Segment(id, p, dp, env) => SegmentMeans(c, p, dp, env);
    case CloseDrain(id, edge) => CloseMeans(c, edge);
    case ResetRequest(id) => ResetRequestMeans(c);
    case RtoScan(_, _) =>
      if ScannedOne(c, d, b.here, true) {
        LeaversAreClosed(c, d);
      }
    case IdleScan(_, _) => IdledView(c);
    case _ =>
  }

  lemma LeaversAreClosed(c: Conn, d: Conn)
    requires ScannedOne(c, d, false, true)
    ensures d.view.state == CLOSED
  {}


  // ---- the code, event by event

  predicate Live(tcp: Manager, all: seq<Stream>, id: nat)
    reads tcp`streams
  {
    id < |all| && all[id] in tcp.streams
  }

  /** What the events do to the streams, if the source survives them. */
  ghost predicate SeatsStep(a: seq<Seat>, b: seq<Seat>, e: Event) {
    |a| == |b| && forall k :: 0 <= k < |a| ==> SeatStep(k, a[k], b[k], e)
  }

  /** The stream that an event is about. */
  predicate Names(e: Event, id: nat) {
    (e.Segment? || e.Attach? || e.Write? || e.Close? || e.CloseDrain? || e.ResetRequest? || e.Discard?) && e.id == id
  }

  /** Nothing happens to the others. */
  lemma OneSeat(a: seq<Seat>, b: seq<Seat>, id: nat, e: Event)
    requires Names(e, id) && id < |a| == |b| && SeatStep(id, a[id], b[id], e)
    requires forall k :: 0 <= k < |a| && k != id ==> b[k] == a[k]
    ensures SeatsStep(a, b, e)
  {}

  /** Only one stream has changed, and no other has come or gone. */
  lemma OnlyOne(tcp: Manager, all: seq<Stream>, a: seq<Seat>, id: nat)
    requires NoRepeats(all) && id < |all| == |a|
    requires forall k :: 0 <= k < |all| && k != id ==> Whole(all[k]) == a[k].conn
    requires forall k :: 0 <= k < |all| && all[k] != all[id] ==> (all[k] in tcp.streams <==> a[k].here)
    ensures forall k :: 0 <= k < |all| && k != id ==> SeatsOf(tcp.streams, all)[k] == a[k]
  {}

  method CreateStream(iss: u32, irs: u32) returns (s: Stream)
    ensures fresh(s) && s.state == LISTEN && NewSeat(Seat(Whole(s), true), iss, irs)
    ensures !s.onControlList && !s.onSendList && !s.onAckList && !s.onTimewaitList && !s.onTimeoutList && s.onRtoIdx < 0
  {
    s := new Stream(iss, irs);
    s.hasRecvbuf, s.recvEdge := true, Wrap(irs + 1);
  }

  method OpenOne(tcp: Manager, all: seq<Stream>, iss: u32, irs: u32) returns (all': seq<Stream>)
    requires tcp.Valid() && Known(tcp, all)
    modifies tcp`streams
    ensures tcp.Valid() && Known(tcp, all') && |all'| == |all| + 1 && all' == all + [all'[|all|]] && fresh(all'[|all|])
    ensures SeatsOf(tcp.streams, all) == old(SeatsOf(tcp.streams, all))
    ensures NewSeat(Seat(Whole(all'[|all|]), all'[|all|] in tcp.streams), iss, irs)
  {
    hide Manager.Valid, Whole, NewSeat;
    assert allocated(all);
    var s := CreateStream(iss, irs);
    assert s !in all;
    tcp.Admit(s);
    all' := all + [s];
  }

  method DoSegment(tcp: Manager, all: seq<Stream>, id: nat, p: Packet, d: DataPath, env: Env) returns (ok: bool)
    requires tcp.Valid() && Known(tcp, all) && Live(tcp, all, id)
    modifies tcp, all[id]
    ensures old(tcp.rtoNowIdx) == 0 ==> tcp.rtoNowIdx == 0
    ensures tcp.Valid() && Known(tcp, all) && (ok <==> !Stops(old(Whole(all[id])), p, env))
    ensures tcp.log == old(tcp.log) && tcp.room == old(tcp.room)
    ensures SeatsStep(old(SeatsOf(tcp.streams, all)), SeatsOf(tcp.streams, all), Segment(id, p, d, env))
  {
    hide Manager.Valid, SeatsStep, Whole, OnSegment, InWindow, Expected, SegmentTo, Destroys, Stops, Resets;
    ghost var before := SeatsOf(tcp.streams, all);
    ok := Process(tcp, all[id], p, d, env);
    OnlyOne(tcp, all, before, id);
    OneSeat(before, SeatsOf(tcp.streams, all), id, Segment(id, p, d, env));
  }

  lemma ShowsRequest(s: Stream)
    ensures Whole(s).view.request == s.request
  {}

  /** A closed stream that the application has closed as well is dropped (src/user_api.c:153-161,
      src/user_tcp.c:2405-2409). */
  method DoDiscard(tcp: Manager, all: seq<Stream>, id: nat)
    requires tcp.Valid() && Known(tcp, all) && Live(tcp, all, id)
    modifies tcp, all[id]
    ensures old(tcp.rtoNowIdx) == 0 ==> tcp.rtoNowIdx == 0
    ensures tcp.Valid() && Known(tcp, all)
    ensures tcp.log == old(tcp.log) && tcp.room == old(tcp.room)
    ensures SeatsStep(old(SeatsOf(tcp.streams, all)), SeatsOf(tcp.streams, all), Discard(id))
  {
    hide Manager.Valid, SeatsStep, Whole, Off;
    Shows(all[id]);
    ShowsRequest(all[id]);
    ghost var before := SeatsOf(tcp.streams, all);
    if all[id].state == CLOSED && all[id].request.closed {
      Drop(tcp, all[id]);
    }
    OnlyOne(tcp, all, before, id);
    OneSeat(before, SeatsOf(tcp.streams, all), id, Discard(id));
  }

  /** An application takes a stream, writes, or closes it (src/user_api.c:82-187 and 434,
      src/user_tcp.c:2228-2233). */
  method DoSocket(tcp: Manager, all: seq<Stream>, e: Event)
    requires tcp.Valid() && Known(tcp, all) && (e.Attach? || e.Write? || e.Close?) && Live(tcp, all, e.id)
    modifies tcp, all[e.id]
    ensures old(tcp.rtoNowIdx) == 0 ==> tcp.rtoNowIdx == 0
    ensures tcp.Valid() && Known(tcp, all)
    ensures tcp.log == old(tcp.log) && tcp.room == old(tcp.room)
    ensures SeatsStep(old(SeatsOf(tcp.streams, all)), SeatsOf(tcp.streams, all), e)
  {
    hide Manager.Queues, Manager.Timers, SeatsStep, Whole, Look, GivenUpBy, Loaded, AsksClose;
    var s := all[e.id];
    ghost var before := SeatsOf(tcp.streams, all);
    if e.Attach? {
      Give(s, e.socket, e.socketMap);
    } else if e.Close? {
      CloseStream(s);
    } else {
      Buffer(s);
      WantSend(tcp, s);
    }
    OnlyOne(tcp, all, before, e.id);
    OneSeat(before, SeatsOf(tcp.streams, all), e.id, e);
  }

  method Give(s: Stream, socket: bool, socketMap: bool)
    modifies s`hasSocket, s`hasSocketMap
    ensures var c := old(Whole(s)); Whole(s) == c.(owner := c.owner.(socket := socket, socketMap := socketMap))
  {
    hide Look, NumbersOf, LinksOf, ClockOf, InboxOf, EndingOf;
    s.hasSocket, s.hasSocketMap := socket, socketMap;
  }

  method Buffer(s: Stream)
    modifies s`hasSndbuf
    ensures s.hasSndbuf && Whole(s) == old(Whole(s)).(owner := old(Whole(s)).owner.(sndbuf := true))
  {
    hide Look, NumbersOf, LinksOf, ClockOf, InboxOf, EndingOf;
    s.hasSndbuf := true;
  }

  /** Requests to close or reset are taken up (src/user_tcp.c:2244-2372). */
  method DoClose(tcp: Manager, all: seq<Stream>, e: Event)
    requires tcp.Valid() && Known(tcp, all) && (e.CloseDrain? || e.ResetRequest?) && Live(tcp, all, e.id)
    modifies tcp, all[e.id]
    ensures old(tcp.rtoNowIdx) == 0 ==> tcp.rtoNowIdx == 0
    ensures tcp.Valid() && Known(tcp, all)
    ensures tcp.log == old(tcp.log) && tcp.room == old(tcp.room)
    ensures SeatsStep(old(SeatsOf(tcp.streams, all)), SeatsOf(tcp.streams, all), e)
  {
    hide Manager.Queues, Manager.Timers, SeatsStep, MayClose, BeginsClose, Whole, Look, ResetTo, CloseTo;
    var s := all[e.id];
    ShowsAll(s);
    ghost var before := SeatsOf(tcp.streams, all);
    var putAside;
    if e.ResetRequest? {
      putAside := ApiReset(tcp, s);
    } else if s.request.onCloseq {
      putAside := ApiClose(tcp, s, e.edge);
    }
    OnlyOne(tcp, all, before, e.id);
    OneSeat(before, SeatsOf(tcp.streams, all), e.id, e);
  }

  // ---- the passes of the list writers

  lemma ControlSeat(a: Stack, b: Stack, ts: u32, thresh: nat, k: nat, s: Stream, id: nat)
    requires s in a.ever && Kept(a, b) && ControlDone(a, b, ts, thresh, k)
    ensures SeatStep(id, Seat(a.ever[s], s in a.live), Seat(b.ever[s], s in b.live), ControlPass(ts, thresh))
  {
    hide Served, Rewound, RepliesOf, Blocked;
  }

  method DoControl(tcp: Manager, all: seq<Stream>, curTs: u32, thresh: nat)
    requires tcp.Valid() && Known(tcp, all)
    modifies tcp, tcp.streams
    ensures old(tcp.rtoNowIdx) == 0 ==> tcp.rtoNowIdx == 0
    ensures tcp.Valid() && Known(tcp, all) && tcp.streams <= old(tcp.streams)
    ensures SeatsStep(old(SeatsOf(tcp.streams, all)), SeatsOf(tcp.streams, all), ControlPass(curTs, thresh))
    ensures StackStep(old(StackOf(tcp, all)), StackOf(tcp, all), ControlPass(curTs, thresh))
  {
    hide Manager.Valid, Whole, Kept, ControlDone, SeatStep;
    ghost var before, a := SeatsOf(tcp.streams, all), StackOf(tcp, all);
    ghost var k := ControlTurn(tcp, all, curTs, thresh);
    forall j | 0 <= j < |all|
      ensures SeatStep(j, before[j], SeatsOf(tcp.streams, all)[j], ControlPass(curTs, thresh))
    {
      ControlSeat(a, StackOf(tcp, all), curTs, thresh, k, all[j], j);
    }
  }

  lemma AckSeat(a: Stack, b: Stack, ts: u32, thresh: nat, s: Stream, id: nat)
    requires s in a.ever && Kept(a, b) && AcksDone(a, b, ts, Least(thresh, |a.acks|))
    ensures SeatStep(id, Seat(a.ever[s], s in a.live), Seat(b.ever[s], s in b.live), AckPass(ts, thresh))
  {
    hide Acked, StillOwing, AckLog, AckRoom;
    var k := Least(thresh, |a.acks|);
    if s in a.live && s in a.acks[..k] {
      var i :| 0 <= i < k && a.acks[i] == s;
      assert b.ever[s] == Acked(a.live[s], AckRoom(a.acks, a.live, a.room, i), ts);
    }
  }

  method DoAcks(tcp: Manager, all: seq<Stream>, curTs: u32, thresh: nat)
    requires tcp.Valid() && Known(tcp, all)
    modifies tcp, tcp.streams
    ensures old(tcp.rtoNowIdx) == 0 ==> tcp.rtoNowIdx == 0
    ensures tcp.Valid() && Known(tcp, all) && tcp.streams <= old(tcp.streams)
    ensures SeatsStep(old(SeatsOf(tcp.streams, all)), SeatsOf(tcp.streams, all), AckPass(curTs, thresh))
    ensures StackStep(old(StackOf(tcp, all)), StackOf(tcp, all), AckPass(curTs, thresh))
  {
    hide Manager.Valid, Whole, Kept, AcksDone, SeatStep;
    ghost var before, a := SeatsOf(tcp.streams, all), StackOf(tcp, all);
    AckTurn(tcp, all, curTs, thresh);
    forall j | 0 <= j < |all|
      ensures SeatStep(j, before[j], SeatsOf(tcp.streams, all)[j], AckPass(curTs, thresh))
    {
      AckSeat(a, StackOf(tcp, all), curTs, thresh, all[j], j);
    }
  }

  lemma DataSeat(a: Stack, b: Stack, ts: u32, thresh: nat, plans: seq<FlushPlan>, k: nat, s: Stream, id: nat)
    requires s in a.ever && Kept(a, b) && DataDone(a, b, ts, thresh, plans, k)
    ensures SeatStep(id, Seat(a.ever[s], s in a.live), Seat(b.ever[s], s in b.live), DataPass(ts, thresh, plans))
  {
    hide DataSent, DataLog, DataRoom, Unsent, NoneUnsent;
    if s in a.live && s in a.data[..k] {
      var i :| 0 <= i < k && a.data[i] == s;
      assert b.ever[s] == DataSent(a.live[s], plans[i], DataRoom(a.data, a.live, plans, a.room, i), ts);
    }
  }

  method DoData(tcp: Manager, all: seq<Stream>, curTs: u32, thresh: nat, plans: seq<FlushPlan>)
    requires tcp.Valid() && Known(tcp, all)
    modifies tcp, tcp.streams
    ensures old(tcp.rtoNowIdx) == 0 ==> tcp.rtoNowIdx == 0
    ensures tcp.Valid() && Known(tcp, all) && tcp.streams <= old(tcp.streams)
    ensures SeatsStep(old(SeatsOf(tcp.streams, all)), SeatsOf(tcp.streams, all), DataPass(curTs, thresh, plans))
    ensures StackStep(old(StackOf(tcp, all)), StackOf(tcp, all), DataPass(curTs, thresh, plans))
  {
    hide Manager.Valid, Whole, Kept, DataDone, SeatStep;
    ghost var before, a := SeatsOf(tcp.streams, all), StackOf(tcp, all);
    if |plans| < |tcp.sendList| {
      NoData(before, curTs, thresh, plans);
      return;
    }
    ghost var k := DataTurn(tcp, all, curTs, thresh, plans);
    forall j | 0 <= j < |all|
      ensures SeatStep(j, before[j], SeatsOf(tcp.streams, all)[j], DataPass(curTs, thresh, plans))
    {
      DataSeat(a, StackOf(tcp, all), curTs, thresh, plans, k, all[j], j);
    }
  }

  lemma NoData(a: seq<Seat>, curTs: u32, thresh: nat, plans: seq<FlushPlan>)
    ensures SeatsStep(a, a, DataPass(curTs, thresh, plans))
  {}

  // ---- the timer checks

  lemma ScanSeat(a: Stack, b: Stack, ts: u32, limit: int, s: Stream, id: nat)
    requires s in a.ever && Kept(a, b) && ScanTouches(a, b)
    ensures SeatStep(id, Seat(a.ever[s], s in a.live), Seat(b.ever[s], s in b.live), RtoScan(ts, limit))
  {
    hide ScannedOne;
  }

  method DoRto(tcp: Manager, all: seq<Stream>, curTs: u32, limit: int) returns (ok: bool)
    requires tcp.Valid() && Known(tcp, all)
    modifies tcp, tcp.streams
    ensures tcp.Valid() && Known(tcp, all) && tcp.streams <= old(tcp.streams)
    ensures old(tcp.rtoNowIdx) == 0 && limit > |all| ==> tcp.rtoNowIdx == 0
    ensures ok <==> !ScanFails(old(StackOf(tcp, all)), curTs, limit)
    ensures SeatsStep(old(SeatsOf(tcp.streams, all)), SeatsOf(tcp.streams, all), RtoScan(curTs, limit))
    ensures ok ==> StackStep(old(StackOf(tcp, all)), StackOf(tcp, all), RtoScan(curTs, limit))
  {
    hide Manager.Valid, Whole, Kept, ScanFails, ScanDone, ScanTouches, SeatStep;
    ghost var before, a := SeatsOf(tcp.streams, all), StackOf(tcp, all);
    ok := ScanTurn(tcp, all, curTs, limit);
    forall j | 0 <= j < |all|
      ensures SeatStep(j, before[j], SeatsOf(tcp.streams, all)[j], RtoScan(curTs, limit))
    {
      ScanSeat(a, StackOf(tcp, all), curTs, limit, all[j], j);
    }
  }

  lemma SweepSeat(a: Stack, b: Stack, ts: u32, limit: int, k: nat, s: Stream, id: nat)
    requires s in a.ever && Kept(a, b) && SweepDone(a, b, ts, limit, k)
    ensures SeatStep(id, Seat(a.ever[s], s in a.live), Seat(b.ever[s], s in b.live), TimewaitScan(ts, limit))
  {
    hide Off, Over, Expired;
  }

  method DoTimewait(tcp: Manager, all: seq<Stream>, curTs: u32, limit: int)
    requires tcp.Valid() && Known(tcp, all)
    modifies tcp, tcp.streams
    ensures old(tcp.rtoNowIdx) == 0 ==> tcp.rtoNowIdx == 0
    ensures tcp.Valid() && Known(tcp, all) && tcp.streams <= old(tcp.streams)
    ensures SeatsStep(old(SeatsOf(tcp.streams, all)), SeatsOf(tcp.streams, all), TimewaitScan(curTs, limit))
    ensures StackStep(old(StackOf(tcp, all)), StackOf(tcp, all), TimewaitScan(curTs, limit))
  {
    hide Manager.Valid, Whole, Kept, SweepDone, SeatStep;
    ghost var before, a := SeatsOf(tcp.streams, all), StackOf(tcp, all);
    ghost var k := SweepTurn(tcp, all, curTs, limit);
    forall j | 0 <= j < |all|
      ensures SeatStep(j, before[j], SeatsOf(tcp.streams, all)[j], TimewaitScan(curTs, limit))
    {
      SweepSeat(a, StackOf(tcp, all), curTs, limit, k, all[j], j);
    }
  }

  lemma IdleSeat(a: Stack, b: Stack, ts: u32, limit: int, k: nat, s: Stream, id: nat)
    requires s in a.ever && Kept(a, b) && IdleDone(a, b, ts, limit, k)
    ensures SeatStep(id, Seat(a.ever[s], s in a.live), Seat(b.ever[s], s in b.live), IdleScan(ts, limit))
  {
    hide Idled, IsIdle;
  }

  method DoIdle(tcp: Manager, all: seq<Stream>, curTs: u32, limit: int)
    requires tcp.Valid() && Known(tcp, all)
    modifies tcp, tcp.streams
    ensures old(tcp.rtoNowIdx) == 0 ==> tcp.rtoNowIdx == 0
    ensures tcp.Valid() && Known(tcp, all) && tcp.streams <= old(tcp.streams)
    ensures SeatsStep(old(SeatsOf(tcp.streams, all)), SeatsOf(tcp.streams, all), IdleScan(curTs, limit))
    ensures StackStep(old(StackOf(tcp, all)), StackOf(tcp, all), IdleScan(curTs, limit))
  {
    hide Manager.Valid, Whole, Kept, IdleDone, SeatStep;
    ghost var before, a := SeatsOf(tcp.streams, all), StackOf(tcp, all);
    ghost var k := IdleTurn(tcp, all, curTs, limit);
    forall j | 0 <= j < |all|
      ensures SeatStep(j, before[j], SeatsOf(tcp.streams, all)[j], IdleScan(curTs, limit))
    {
      IdleSeat(a, StackOf(tcp, all), curTs, limit, k, all[j], j);
    }
  }

  // ---- events and runs

  lemma SeatsFollow(a: World, b: World, e: Event)
    requires SeatsStep(a.seats, b.seats, e) && !e.Open? && (StackStep(a.stack, b.stack, e) || Halts(a, e))
    ensures Follows(a, b, e)
  {}

  lemma NewFollows(a: World, b: World, e: Event)
    requires e.Open? && |b.seats| == |a.seats| + 1 && NewSeat(b.seats[|a.seats|], e.iss, e.irs)
    requires Silent(a.stack, b.stack) && forall k :: 0 <= k < |a.seats| ==> b.seats[k] == a.seats[k]
    ensures Follows(a, b, e) && !Halts(a, e)
  {}

  lemma NothingHappens(a: seq<Seat>, e: Event)
    requires match e { case Segment(id, _, _, _) => true case Attach(id, _, _) => true case Write(id) => true
      case Close(id) => true case CloseDrain(id, _) => true case ResetRequest(id) => true case Discard(id) => true
      case _ => false }
    requires e.id < |a| ==> !a[e.id].here
    ensures SeatsStep(a, a, e)
  {}

  lemma RoomChanges(a: World, packets: nat)
    ensures SeatsStep(a.seats, a.seats, Room(packets)) && !Halts(a, Room(packets))
    ensures forall b: Stack :: b.room == packets && b.log == a.stack.log ==> StackStep(a.stack, b, Room(packets))
  {}

  lemma SilentStep(a: Stack, b: Stack, e: Event)
    requires Silent(a, b)
    requires e.Segment? || e.Attach? || e.Write? || e.Close? || e.CloseDrain? || e.ResetRequest? || e.Discard?
    ensures StackStep(a, b, e)
  {}

  /** What is asked of one stream. */
  method DoOne(tcp: Manager, all: seq<Stream>, e: Event) returns (ok: bool)
    requires tcp.Valid() && Known(tcp, all)
    requires e.Segment? || e.Attach? || e.Write? || e.Close? || e.CloseDrain? || e.ResetRequest? || e.Discard?
    modifies tcp, all
    ensures old(tcp.rtoNowIdx) == 0 ==> tcp.rtoNowIdx == 0
    ensures tcp.Valid() && Known(tcp, all) && (ok <==> !Halts(old(WorldOf(tcp, all)), e))
    ensures tcp.log == old(tcp.log) && tcp.room == old(tcp.room)
    ensures SeatsStep(old(SeatsOf(tcp.streams, all)), SeatsOf(tcp.streams, all), e)
  {
    hide Manager.Queues, Manager.Timers, Whole, SeatsStep, Stops;
    ok := true;
    if !Live(tcp, all, e.id) {
      NothingHappens(SeatsOf(tcp.streams, all), e);
    } else if e.Segment? {
      ok := DoSegment(tcp, all, e.id, e.p, e.d, e.env);
    } else if e.CloseDrain? || e.ResetRequest? {
      DoClose(tcp, all, e);
    } else if e.Discard? {
      DoDiscard(tcp, all, e.id);
    } else {
      DoSocket(tcp, all, e);
    }
  }

  /** The passes and the timer checks. */
  method DoAll(tcp: Manager, all: seq<Stream>, e: Event) returns (ok: bool)
    requires tcp.Valid() && Known(tcp, all)
    requires e.ControlPass? || e.AckPass? || e.DataPass? || e.RtoScan? || e.TimewaitScan? || e.IdleScan?
    modifies tcp, tcp.streams
    ensures old(tcp.rtoNowIdx) == 0 && (e.RtoScan? ==> e.limit > |all|) ==> tcp.rtoNowIdx == 0
    ensures tcp.Valid() && Known(tcp, all) && (ok <==> !Halts(old(WorldOf(tcp, all)), e))
    ensures SeatsStep(old(SeatsOf(tcp.streams, all)), SeatsOf(tcp.streams, all), e)
    ensures ok ==> StackStep(old(StackOf(tcp, all)), StackOf(tcp, all), e)
  {
    hide Manager.Queues, Manager.Timers, Whole, SeatsStep, Fails;
    ok := true;
    match e {
      case ControlPass(curTs, thresh) => DoControl(tcp, all, curTs, thresh);
      case AckPass(curTs, thresh) => DoAcks(tcp, all, curTs, thresh);
      case DataPass(curTs, thresh, plans) => DoData(tcp, all, curTs, thresh, plans);
      case RtoScan(curTs, limit) => ok := DoRto(tcp, all, curTs, limit);
      case TimewaitScan(curTs, limit) => DoTimewait(tcp, all, curTs, limit);
      case IdleScan(curTs, limit) => DoIdle(tcp, all, curTs, limit);
    }
  }

  /** One event. The result is false exactly if the source does not survive it. */
  method Do(tcp: Manager, all: seq<Stream>, e: Event) returns (all': seq<Stream>, ok: bool)
    requires tcp.Valid() && Known(tcp, all)
    modifies tcp, all
    ensures tcp.Valid() && Known(tcp, all') && all <= all' && |all'| <= |all| + 1 && fresh(all'[|all|..])
    ensures old(tcp.rtoNowIdx) == 0 && (e.RtoScan? ==> e.limit > |all|) ==> tcp.rtoNowIdx == 0
    ensures ok <==> !Halts(old(WorldOf(tcp, all)), e)
    ensures Follows(old(WorldOf(tcp, all)), WorldOf(tcp, all'), e)
  {
    hide Manager.Queues, Manager.Timers, Whole, SeatsStep, Follows, NewSeat, StackStep, Halts;
    ghost var before := WorldOf(tcp, all);
    all', ok := all, true;
    if e.Open? {
      all' := OpenOne(tcp, all, e.iss, e.irs);
      NewFollows(before, WorldOf(tcp, all'), e);
    } else if e.Room? {
      tcp.room := e.packets;
      RoomChanges(before, e.packets);
      SeatsFollow(before, WorldOf(tcp, all), e);
    } else if e.ControlPass? || e.AckPass? || e.DataPass? || e.RtoScan? || e.TimewaitScan? || e.IdleScan? {
      ok := DoAll(tcp, all, e);
      SeatsFollow(before, WorldOf(tcp, all), e);
    } else {
      ok := DoOne(tcp, all, e);
      SilentStep(before.stack, StackOf(tcp, all), e);
      SeatsFollow(before, WorldOf(tcp, all), e);
    }
  }

  /** A run of worlds: each follows from the one before by its event, from the empty stack on. */
  ghost predicate Worlds(worlds: seq<World>, events: seq<Event>) {
    && |worlds| == |events| + 1 && worlds[0].seats == []
    && forall i :: 0 <= i < |events| ==> Follows(worlds[i], worlds[i + 1], events[i])
  }

  /** The source survives the first `n` events. */
  ghost predicate Survives(worlds: seq<World>, events: seq<Event>, n: int) {
    n <= |worlds| && n <= |events| && forall i :: 0 <= i < n ==> !Halts(worlds[i], events[i])
  }

  lemma WorldAdded(worlds: seq<World>, events: seq<Event>, n: nat, w: World)
    requires n < |events| && Worlds(worlds, events[..n]) && Follows(worlds[n], w, events[n])
    ensures Worlds(worlds + [w], events[..n + 1]) && (worlds + [w])[n] == worlds[n] && (worlds + [w])[n + 1] == w
    ensures Survives(worlds, events, n) ==> Survives(worlds + [w], events, n)
    ensures Survives(worlds, events, n) && !Halts(worlds[n], events[n]) ==> Survives(worlds + [w], events, n + 1)
  {
    hide Follows, Halts;
  }

  /** What is to be seen of the streams, world by world. */
  ghost function TraceOf(worlds: seq<World>): seq<seq<View>> {
    seq(|worlds|, i requires 0 <= i < |worlds| => ViewsOf(worlds[i]))
  }

  /** The views of a run of worlds are a run in the sense above. */
  lemma WorldsAreRun(worlds: seq<World>, events: seq<Event>)
    requires Worlds(worlds, events)
    ensures Run(TraceOf(worlds), events)
  {
    hide Follows, Step;
    forall i | 0 <= i < |events|
      ensures Step(ViewsOf(worlds[i]), ViewsOf(worlds[i + 1]), events[i])
    {
      FollowsIsStep(worlds[i], worlds[i + 1], events[i]);
    }
  }

  /** The scans of the run may handle more streams than there can be. */
  ghost predicate WideScans(events: seq<Event>) {
    forall i :: 0 <= i < |events| && events[i].RtoScan? ==> events[i].limit >= |events|
  }

  /** One more event of a run that has survived so far. */
  method Advance(tcp: Manager, all: seq<Stream>, events: seq<Event>, n: nat, ghost worlds: seq<World>)
    returns (all': seq<Stream>, ok: bool, ghost worlds': seq<World>)
    requires n < |events| && tcp.Valid() && Known(tcp, all)
    requires Worlds(worlds, events[..n]) && |worlds| == n + 1 && worlds[n] == WorldOf(tcp, all)
    requires Survives(worlds, events, n)
    modifies tcp, all
    ensures tcp.Valid() && Known(tcp, all') && all <= all' && |all'| <= |all| + 1 && fresh(all'[|all|..])
    ensures old(tcp.rtoNowIdx) == 0 && WideScans(events) && |all| <= n ==> tcp.rtoNowIdx == 0
    ensures Worlds(worlds', events[..n + 1]) && |worlds'| == n + 2 && worlds'[n + 1] == WorldOf(tcp, all')
    ensures Survives(worlds', events, n) && (ok ==> Survives(worlds', events, n + 1))
    ensures !ok ==> Halts(worlds'[n], events[n])
  {
    hide Manager.Valid, Known, WorldOf, Follows, Halts, Survives, Worlds;
    all', ok := Do(tcp, all, events[n]);
    WorldAdded(worlds, events, n, WorldOf(tcp, all'));
    worlds' := worlds + [WorldOf(tcp, all')];
  }

  /** A whole run: all events are handled, up to the first, if there is one, that the source does not
      survive. What the events do to the streams is a run in the sense above, for any events whatever. */
  method Drive(events: seq<Event>) returns (tcp: Manager, all: seq<Stream>, n: nat, ghost worlds: seq<World>)
    ensures n <= |events| && Worlds(worlds, events[..n]) && worlds[n] == WorldOf(tcp, all)
    ensures Run(TraceOf(worlds), events[..n])
    ensures Survives(worlds, events, n - 1)
    ensures n == |events| || (n > 0 && Halts(worlds[n - 1], events[n - 1]))
    ensures tcp.Valid() && Known(tcp, all)
    // then the wheel never turns (see CheckRtmTimeout)
    ensures WideScans(events) ==> tcp.rtoNowIdx == 0
  {
    hide Manager.Valid, Halts, Survives, WideScans, WorldOf, Worlds, Known, Run;
    tcp, worlds := Start(events);
    all, n := [], 0;
    var ok := true;
    while ok && n < |events|
      invariant 0 <= n <= |events| && Worlds(worlds, events[..n])
      invariant |worlds| == n + 1 && worlds[n] == WorldOf(tcp, all)
      invariant Survives(worlds, events, n - 1) && (ok ==> Survives(worlds, events, n))
      invariant !ok ==> n > 0 && Halts(worlds[n - 1], events[n - 1])
      invariant tcp.Valid() && Known(tcp, all) && fresh(tcp) && fresh(all) && |all| <= n
      invariant WideScans(events) ==> tcp.rtoNowIdx == 0
      decreases |events| - n
    {
      ghost var was := all;
      all, ok, worlds := Advance(tcp, all, events, n, worlds);
      assert all == was + all[|was|..];
      n := n + 1;
    }
    WorldsAreRun(worlds, events[..n]);
  }

  /** The empty stack. */
  method Start(events: seq<Event>) returns (tcp: Manager, ghost worlds: seq<World>)
    ensures fresh(tcp) && tcp.Valid() && Known(tcp, []) && tcp.rtoNowIdx == 0
    ensures |worlds| == 1 && worlds[0] == WorldOf(tcp, []) && Worlds(worlds, events[..0])
    ensures Survives(worlds, events, 0) && Survives(worlds, events, -1)
  {
    hide Manager.Queues, Manager.Timers, Follows, Halts, Whole;
    tcp := new Manager();
    worlds := [WorldOf(tcp, [])];
  }

  // ---- a run that opens a connection

  /** A SYN, the reply, and its acknowledgement. */
  function Handshake(iss: u32, irs: u32, ts: u32, win: u32): seq<Event> {
    var d := DataPath(irs, false, true, irs, iss, iss, false, false, false);
    var env := Env(ts, win, false, false);
    [Open(iss, irs), Segment(0, Packet(irs, 0, 0, true, false, false, false, 100), d, env), Room(1),
      ControlPass(ts, 1),
      Segment(0, Packet(Wrap(irs + 1), Wrap(iss + 1), 0, false, true, false, false, 100), d, env)]
  }

  /** Whatever the numbers, these events open the connection, and the source survives them. */
  lemma HandshakeOpens(worlds: seq<World>, iss: u32, irs: u32, ts: u32, win: u32, n: nat)
    requires n <= 5 && Worlds(worlds, Handshake(iss, irs, ts, win)[..n])
    requires n == 5 || (n > 0 && Halts(worlds[n - 1], Handshake(iss, irs, ts, win)[n - 1]))
    ensures n == 5 && |worlds[5].seats| == 1 && worlds[5].seats[0].here
    ensures var c := worlds[5].seats[0].conn;
      && c.view.state == ESTABLISHED && c.view.rcvNxt == Wrap(irs + 1) && c.num == Numbers(Wrap(iss + 1), Wrap(iss + 1))
      && c.clock.watched && !c.clock.timed
  {
    hide SeatStep, Stops, StackStep, Follows, Halts;
    var e := Handshake(iss, irs, ts, win);
    assert forall i :: 0 <= i < n ==> e[..n][i] == e[i] && Follows(worlds[i], worlds[i + 1], e[i]);
    SmallStep(worlds[0], worlds[1], e[0]);
    assert n >= 2;
    SmallStep(worlds[1], worlds[2], e[1]);
    var b := worlds[2].seats[0];
    SynArrives(worlds[1].seats[0], b, iss, irs, e[1].p, e[1].d, e[1].env);
    assert n >= 3;
    SmallStep(worlds[2], worlds[3], e[2]);
    RoomKeeps(b, worlds[3].seats[0], 1);
    assert n >= 4;
    SmallStep(worlds[3], worlds[4], e[3]);
    ReplyKeeps(b, worlds[4].seats[0], ts, 1);
    assert n >= 5;
    SmallStep(worlds[4], worlds[5], e[4]);
    AckArrives(worlds[4].seats[0], worlds[5].seats[0], e[4].p, e[4].d, e[4].env);
  }

  /** An event for the first and only stream. */
  lemma SmallStep(a: World, b: World, e: Event)
    requires Follows(a, b, e) && if e.Open? then a.seats == [] else |a.seats| == 1 && a.seats[0].here
    requires e.Open? || e.Room? || e.ControlPass? || (e.Segment? && e.id == 0)
    ensures |b.seats| == 1
    ensures if e.Open? then NewSeat(b.seats[0], e.iss, e.irs) else SeatStep(0, a.seats[0], b.seats[0], e)
    ensures Halts(a, e) ==> e.Segment? && Stops(a.seats[0].conn, e.p, e.env)
  {
    hide ConnStep, Stops, NewSeat, StackStep;
  }

  lemma SynArrives(a: Seat, b: Seat, iss: u32, irs: u32, p: Packet, d: DataPath, env: Env)
    requires NewSeat(a, iss, irs) && p.syn && !p.rst
    ensures !Stops(a.conn, p, env)
    ensures SeatStep(0, a, b, Segment(0, p, d, env)) ==>
      && b.here && b.conn.view.state == SYN_RCVD && b.conn.num == a.conn.num
      && b.conn.iss == iss && b.conn.irs == irs && b.conn.num.una == iss
  {}

  lemma RoomKeeps(a: Seat, b: Seat, packets: nat)
    ensures SeatStep(0, a, b, Room(packets)) ==> b == a
  {}

  lemma ReplyKeeps(a: Seat, b: Seat, ts: u32, thresh: nat)
    requires a.here && a.conn.view.state == SYN_RCVD
    ensures SeatStep(0, a, b, ControlPass(ts, thresh)) ==>
      && b.here && b.conn.view == a.conn.view && b.conn.num.una == a.conn.num.una
      && b.conn.iss == a.conn.iss && b.conn.irs == a.conn.irs
  {}

  lemma AckArrives(a: Seat, b: Seat, p: Packet, d: DataPath, env: Env)
    requires a.here && a.conn.view.state == SYN_RCVD && p.ack && !p.syn && !p.rst && p.len == 0
    requires p.ackSeq == Wrap(a.conn.iss + 1) && !env.acceptFull
    ensures !Stops(a.conn, p, env)
    ensures SeatStep(0, a, b, Segment(0, p, d, env)) ==>
      && b.here && b.conn.view.state == ESTABLISHED && b.conn.view.rcvNxt == Wrap(a.conn.irs + 1)
      && b.conn.num == Numbers(p.ackSeq, Wrap(a.conn.num.una + 1)) && b.conn.clock.watched && !b.conn.clock.timed
  {}

  /** ... driven through the code. */
  method OpenConnection(iss: u32, irs: u32, ts: u32, win: u32) returns (tcp: Manager, s: Stream)
    ensures tcp.Valid() && tcp.streams == {s} && s.state == ESTABLISHED && s.onTimeoutList && s.onRtoIdx < 0
    ensures s.sndNxt == s.sndUna == Wrap(iss + 1) && s.rcvNxt == Wrap(irs + 1)
  {
    hide Manager.Queues, Manager.Timers, Worlds, Halts, Survives, Run, Whole;
    var events := Handshake(iss, irs, ts, win);
    var all, n;
    ghost var worlds;
    tcp, all, n, worlds := Drive(events);
    HandshakeOpens(worlds, iss, irs, ts, win, n);
    s := all[0];
    ShowsAll(s);
  }

  // ---- two runs into a failing assertion

  lemma SomebodyThere(list: seq<Stream>, cnt: int, members: set<Stream>)
    requires Holds(list, cnt, members)
    ensures list != [] ==> members != {}
  {
    assert list != [] ==> list[0] in list;
  }

  lemma NoTimer(tcp: Manager, s: Stream)
    requires tcp.RtoOk() && tcp.streams == {s} && s.onRtoIdx < 0
    ensures tcp.rtoListCnt == 0
  {
    forall k | 0 <= k < |tcp.rtoList|
      ensures tcp.rtoList[k] == []
    {
      SomebodyThere(tcp.rtoList[k], |tcp.rtoList[k]|, set x | x in tcp.streams && x.onRtoIdx == k);
    }
    SizesZero(tcp.rtoList);
  }

  lemma OnlyTimer(tcp: Manager, s: Stream)
    requires tcp.RtoOk() && tcp.streams == {s} && s.onRtoIdx == tcp.rtoNowIdx
    ensures CurrentSlot(tcp) == [s] && tcp.rtoListCnt > 0
  {
    var k := tcp.rtoNowIdx;
    OneElement(tcp.rtoList[k], |tcp.rtoList[k]|, (set x | x in tcp.streams && x.onRtoIdx == k), s);
    SizesUpdate(tcp.rtoList, k, []);
  }

  lemma OneElement(list: seq<Stream>, cnt: int, members: set<Stream>, s: Stream)
    requires Holds(list, cnt, members) && members == {s}
    ensures list == [s]
  {
    HoldsWithout(list, cnt, members, s);
    SomebodyThere(Without(list, s), cnt - 1, members - {s});
    assert s in list;
  }

  method Admitted() returns (tcp: Manager, s: Stream)
    ensures fresh(tcp) && fresh(s) && tcp.Valid() && tcp.streams == {s} && s.state == LISTEN
    ensures !s.onControlList && !s.onSendList && !s.onAckList && !s.onTimewaitList && !s.haveReset && s.onRtoIdx < 0
    ensures s.iss == s.irs == s.sndUna == s.sndNxt == s.rcvNxt == 0 && tcp.log == []
  {
    hide Manager.Queues, Manager.Timers;
    tcp := new Manager();
    s := new Stream(0, 0);
    tcp.Admit(s);
  }

  /** A SYN arrives and the reply goes out. */
  method SynAnswered() returns (tcp: Manager, s: Stream)
    ensures fresh(tcp) && fresh(s) && tcp.Valid() && tcp.streams == {s} && s.state == SYN_RCVD && tcp.room > 0
    ensures !s.onControlList && !s.onSendList && !s.onAckList && !s.onTimewaitList && !s.haveReset
    ensures s.iss == s.irs == s.sndUna == 0
    ensures tcp.log == [Wire(s, SYN_ACK, 0, 1, 0)]
  {
    hide Manager.Queues, Manager.Timers, Look, Answered, Plain, Whole, Greeted, Emitted;
    tcp, s := Admitted();
    tcp.room := 10;
    var ok := HandleListen(tcp, s, Packet(0, 0, 0, true, false, false, false, 100));
    LeaveControl(tcp, s);
    EarlyIsIdle(tcp, s);
    Shows(s);
    ShowsNumbers(s);
    var r := SendSyn(tcp, s, 0, true);
  }

  /** ... and its acknowledgement arrives. */
  method Connected() returns (tcp: Manager, s: Stream)
    ensures fresh(tcp) && fresh(s) && tcp.Valid() && tcp.streams == {s} && s.state == ESTABLISHED && tcp.room > 0
    ensures !s.onControlList && !s.onSendList && !s.onAckList && !s.onTimewaitList && !s.haveReset && s.onRtoIdx < 0
    ensures s.sndNxt == s.sndUna == s.rcvNxt == 1 && s.onTimeoutList && s.nrtx == 0
    ensures tcp.log == [Wire(s, SYN_ACK, 0, 1, 0)]
  {
    hide Manager.Queues, Manager.Timers, Look, Plain, Whole, SynRcvdTo;
    tcp, s := SynAnswered();
    var ok := HandleSynRcvd(tcp, s, Packet(1, 1, 0, false, true, false, false, 100), false);
    EarlyIsIdle(tcp, s);
  }

  /** The application takes the stream, and ten bytes go out. */
  method InFlight() returns (tcp: Manager, s: Stream)
    ensures fresh(tcp) && fresh(s) && tcp.Valid() && tcp.streams == {s} && s.state == ESTABLISHED
    ensures !s.onControlList && !s.onSendList && !s.onAckList && !s.haveReset && s.onTimeoutList
    ensures s.hasSocketMap && s.nrtx == 0 && s.sndUna == 1 && s.sndNxt == 11
    ensures tcp.log == [Wire(s, SYN_ACK, 0, 1, 0), Wire(s, ACK, 1, 1, 10)]
    ensures CurrentSlot(tcp) == [s] && tcp.rtoListCnt > 0 && tcp.rtoNowTs == 3000
  {
    hide Manager.Queues, Manager.Timers;
    tcp, s := Connected();
    s.hasSocket, s.hasSocketMap, s.hasSndbuf, s.rto := true, true, true, 3000;
    SendTen(tcp, s);
  }

  method SendTen(tcp: Manager, s: Stream)
    requires tcp.Timers() && tcp.streams == {s} && s.onRtoIdx < 0 && !s.onTimewaitList && tcp.room > 0 && s.rto == 3000
    modifies tcp`room, tcp`log, tcp`timeoutList, tcp`rtoList, tcp`rtoListCnt, tcp`rtoNowIdx, tcp`rtoNowTs
    modifies s`isFinSent, s`lastActiveTs, s`sndNxt, s`tsRto, s`onRtoIdx
    ensures tcp.Timers() && s.sndNxt == Wrap(old(s.sndNxt) + 10)
    ensures tcp.log == old(tcp.log) + [Wire(s, ACK, old(s.sndNxt), s.rcvNxt, 10)]
    ensures CurrentSlot(tcp) == [s] && tcp.rtoListCnt > 0 && tcp.rtoNowTs == 3000
  {
    hide Manager.RtoOk, Manager.TimeoutOk, Manager.TimewaitOk, Manager.Apart, Whole, Emitted, Look;
    NoTimer(tcp, s);
    Shows(s);
    ShowsNumbers(s);
    var r := SendTcppkt(tcp, s, 0, ACK, 10);
    OnlyTimer(tcp, s);
  }

  /** An established connection with data in flight falls idle: the check for inactivity closes it,
      but leaves its timer running, and the next due scan of the wheel fails an assertion. */
  method IdleThenTimeout(curTs: u32) returns (ok: bool)
    requires 3000 <= curTs < HALF
    ensures !ok
  {
    hide Manager.Queues, Manager.Timers, NoneFails, Whole, Idled, Fails;
    var tcp, s := InFlight();
    ShowsClock(s);
    IdledKeeps(Whole(s));
    TimeOut(tcp, s);
    ClosedFails(Whole(s));
    OneFails(s, 1);
    Due(curTs);
    ghost var n;
    ok, n := CheckRtmTimeout(tcp, curTs, 1);
  }

  /** The same with a reset by the application instead. */
  method ResetThenTimeout(curTs: u32) returns (ok: bool)
    requires 3000 <= curTs < HALF
    ensures !ok
  {
    hide Manager.Queues, Manager.Timers, NoneFails, Whole, ResetTo, Fails, MayClose;
    var tcp, s := InFlight();
    var putAside := ApiReset(tcp, s);
    ShowsAll(s);
    ClosedFails(Whole(s));
    OneFails(s, 1);
    Due(curTs);
    ghost var n;
    ok, n := CheckRtmTimeout(tcp, curTs, 1);
  }

  /** A closed stream on the wheel makes the scan fail. */
  lemma ClosedFails(c: Conn)
    requires c.view.state == CLOSED && c.clock.nrtx < MAX_RTX
    ensures Fails(c)
  {}

  lemma OneFails(s: Stream, n: int)
    requires Fails(Whole(s)) && n > 0
    ensures !NoneFails([s], n)
  {
    hide Fails, Whole;
    assert [s][0] == s;
  }

  lemma IdledKeeps(c: Conn)
    ensures Idled(c).view.state == CLOSED && Idled(c).clock.nrtx == c.clock.nrtx
  {}

  lemma Due(curTs: u32)
    requires 3000 <= curTs < HALF
    ensures Signed(Wrap(curTs - 3000)) >= 0
  {}
}
