/** One stream of a pass over the send list, with its bytes: user_tcp_write_datalist as the lists
    see it, joined to user_tcp_flush_sendbuffer as the send buffer sees it. */
module DataPasses {
  import opened Lifecycle
  import opened SeqArith
  import opened SchedLists
  import opened Segments
  import opened Senders
  import opened TcpState
  import Sending
  import SendPasses

  function Sizes(segs: seq<Segment>): (sizes: seq<nat>)
    ensures |sizes| == |segs|
  {
    if segs == [] then [] else Sizes(segs[..|segs| - 1]) + [|segs[|segs| - 1].payload|]
  }

  /** The sizes of the segments of a flush add up to the distance that it covers. */
  lemma {:induction false} SizesAddUp(stream: seq<byte>, base: int, a: int, segs: seq<Segment>, b: int)
    requires Covers(stream, base, a, segs, b)
    ensures SendPasses.Sum(Sizes(segs)) == b - a
  {
    if segs != [] {
      var front := segs[..|segs| - 1];
      SizesAddUp(stream, base, a, front, b - |segs[|segs| - 1].payload|);
      assert Sizes(segs)[..|segs| - 1] == Sizes(front);
    }
  }

  /** Bytes that a flush, having got from `from` to `nxt`, could still send if the device and the
      rule of line 2499 let it. */
  ghost predicate Sendable(j: Job, from: int, nxt: int) {
    nxt < |j.stream| && nxt - from < j.window && 0 < j.maxlen
  }

  lemma LeavesIff(j: Job, from: int, segs: seq<Segment>, nxt: int, code: int, room: nat)
    requires Flushed(j, from, segs, nxt, code, room)
    ensures code < 0 <==> Sendable(j, from, nxt)
  {}

  /** What the scheduler is told of a flush: the sizes of the segments sent, and one more if the
      device refused it. */
  function PlanOf(segs: seq<Segment>, code: int, probe: bool): SendPasses.FlushPlan {
    SendPasses.FlushPlan(Sizes(segs) + if code == -2 then [1] else [], code, probe)
  }

  lemma PlanFits(j: Job, from: int, segs: seq<Segment>, nxt: int, code: int, room: nat, probe: bool)
    requires Flushed(j, from, segs, nxt, code, room)
    ensures var plan := PlanOf(segs, code, probe);
      && SendPasses.Fitting(plan, room) == |segs| && SendPasses.Bytes(plan, room) == nxt - from
      && (|plan.sizes| <= room <==> code != -2)
  {
    var plan := PlanOf(segs, code, probe);
    assert plan.sizes[..|segs|] == Sizes(segs);
    SizesAddUp(j.stream, j.base, from, segs, nxt);
  }

  /** Segments as the device gets them. */
  function Wires(s: Stream, segs: seq<Segment>, ackSeq: u32): (wires: seq<Wire>)
    ensures |wires| == |segs|
  {
    if segs == [] then [] else
      var last := segs[|segs| - 1];
      Wires(s, segs[..|segs| - 1], ackSeq) + [Wire(s, Sending.ACK, last.seqNum, ackSeq, |last.payload|)]
  }

  /** What the lists make of the plan of a flush are the segments of the flush. */
  lemma {:induction false} SegmentsAreWires(s: Stream, c: Conn, plan: SendPasses.FlushPlan, stream: seq<byte>,
      base: int, a: int, segs: seq<Segment>, b: int)
    requires Covers(stream, base, a, segs, b) && c.num.nxt == Wrap(base + a)
    requires |segs| <= |plan.sizes| && plan.sizes[..|segs|] == Sizes(segs)
    ensures SendPasses.Segments(s, c, plan, |segs|) == Wires(s, segs, c.view.rcvNxt)
  {
    hide Wrap;
    if segs != [] {
      var n := |segs| - 1;
      var front, last := segs[..n], segs[n];
      var at := b - |last.payload|;
      assert Sizes(segs)[..n] == Sizes(front) && plan.sizes[..n] == plan.sizes[..n + 1][..n];
      assert plan.sizes[n] == plan.sizes[..n + 1][n] == Sizes(segs)[n];
      SegmentsAreWires(s, c, plan, stream, base, a, front, at);
      SizesAddUp(stream, base, a, front, at);
      WrapWrap(base + a, at - a);
    }
  }

  lemma FlushIsLogged(s: Stream, c: Conn, j: Job, from: int, segs: seq<Segment>, nxt: int, code: int, room: nat,
      probe: bool)
    requires Flushed(j, from, segs, nxt, code, room) && c.num.nxt == Wrap(j.base + from) && SendPasses.Flushing(c)
    ensures SendPasses.DataOut(s, c, PlanOf(segs, code, probe), room) == Wires(s, segs, c.view.rcvNxt)
  {
    hide Wrap;
    var plan := PlanOf(segs, code, probe);
    PlanFits(j, from, segs, nxt, code, room, probe);
    assert plan.sizes[..|segs|] == Sizes(segs);
    SegmentsAreWires(s, c, plan, j.stream, j.base, from, segs, nxt);
  }

  lemma NothingLogged(s: Stream, c: Conn, plan: SendPasses.FlushPlan, room: nat)
    ensures !SendPasses.Flushing(c) ==> SendPasses.DataOut(s, c, plan, room) == []
    ensures Wires(s, [], c.view.rcvNxt) == []
  {}

  /** The first stream of the send list is served. It leaves the list exactly if it is in a state
      that sends no data, or nothing is left that its window lets it send; both models agree on
      the number that comes next, and the packets that go out are the segments of the flush. */
  method ServeStream(tcp: Manager, s: Stream, sender: Sender, curTs: u32, probe: bool)
    returns (r: int, segs: seq<Segment>)
    requires tcp.Valid() && tcp.sendList != [] && s == tcp.sendList[0] && s in tcp.streams
    requires sender.Valid() && sender.mss < 0x1_0000 && sender.InOrder() && sender.sndbuf != null &&
      sender.sndbuf.len > 0
    requires s.sndNxt == sender.sndNxt
    modifies tcp, s, sender`sndNxt, sender`nxt
    ensures tcp.Valid() && sender.Valid() && sender.InOrder() && s.sndNxt == sender.sndNxt
    ensures tcp.sendList == old(tcp.sendList)[1..] + if s.onSendList then [s] else []
    ensures tcp.room == old(tcp.room) - |segs|
    ensures tcp.log == old(tcp.log) + Wires(s, segs, s.rcvNxt)
    ensures old(SendPasses.Flushes(s)) ==>
      && Flushed(sender.FlushJob(), old(sender.nxt), segs, sender.nxt, r, old(tcp.room))
      && (s.onSendList <==> Sendable(sender.FlushJob(), old(sender.nxt), sender.nxt))
    ensures !old(SendPasses.Flushes(s)) ==> segs == [] && (s.onSendList <==> s.state == ESTABLISHED)
  {
    hide Wrap, Flushed, Sendable, Sender.Valid, SendPasses.Fitting, SendPasses.Bytes, Manager.Valid;
    hide Whole, Look, SendPasses.Answer, SendPasses.DataSent, SendPasses.DataOut;
    segs := [];
    var plan := PlanOf([], 0, probe);
    ghost var from, c, room := sender.nxt, Whole(s), tcp.room;
    sender.NextNumber();
    Shows(s);
    ShowsNumbers(s);
    SendPasses.ShowsFlushing(s);
    if SendPasses.Flushes(s) {
      var code, ok;
      code, segs, ok := sender.FlushSendbuffer(tcp.room);
      plan := PlanOf(segs, code, probe);
      LeavesIff(sender.FlushJob(), from, segs, sender.nxt, code, tcp.room);
      PlanFits(sender.FlushJob(), from, segs, sender.nxt, code, tcp.room, probe);
      Onward(sender.iss + 1, from, sender.nxt - from);
      FlushIsLogged(s, c, sender.FlushJob(), from, segs, sender.nxt, code, tcp.room, probe);
      sender.NextNumber();
    }
    NothingLogged(s, c, plan, room);
    r := SendPasses.WriteData(tcp, s, curTs, plan);
    Shows(s);
  }
}
