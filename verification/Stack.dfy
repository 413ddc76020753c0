/** What one pass of a list writer or one timer check does to the whole stack, with the lists and the streams
    as values. */
module Stacks {
  import opened Common
  import opened SeqArith
  import opened TcpState
  import opened SchedLists
  import opened Lifecycle
  import opened AckPasses
  import opened ControlPasses
  import opened Scheduling
  import opened Sending
  import opened SendPasses

  /** The lists (`due` is the slot of the wheel that is due), whether the wheel runs and since when, the streams
      in the flow table, all streams there have been, the room of the device, and the packets it has taken. */
  datatype Stack = Stack(control: seq<Stream>, acks: seq<Stream>, data: seq<Stream>, waiting: seq<Stream>,
    watched: seq<Stream>, due: seq<Stream>, running: bool, now: u32, live: map<Stream, Conn>,
    ever: map<Stream, Conn>, room: nat, log: seq<Wire>)

  ghost function StackOf(tcp: Manager, all: seq<Stream>): (stack: Stack)
    reads tcp, tcp.streams, all
  {
    Stack(tcp.controlList, tcp.ackList, tcp.sendList, tcp.timewaitList, tcp.timeoutList, CurrentSlot(tcp),
      tcp.rtoListCnt != 0, tcp.rtoNowTs, Wholes(tcp.streams), Wholes(set s | s in all), tcp.room, tcp.log)
  }

  /** Nothing goes out. */
  ghost predicate Silent(a: Stack, b: Stack) {
    b.room == a.room && b.log == a.log
  }

  /** user_tcp_write_controllist has served the first `k` streams of its list. */
  ghost predicate ControlDone(a: Stack, b: Stack, ts: u32, thresh: nat, k: nat) {
    && a.live.Keys <= b.ever.Keys && k <= |a.control| && k <= thresh && b.control == a.control[k..]
    && (k == |a.control| || k == thresh || (a.control[k] in a.live && Blocked(a.live[a.control[k]], b.room)))
    && b.log == a.log + RepliesOf(a.control[..k], a.live)
    && b.room == a.room - |RepliesOf(a.control[..k], a.live)|
    && (forall s :: s in a.control[..k] ==> s in a.live && b.ever[s] == Served(a.live[s], ts))
    && (forall s :: s in a.control[..k] ==> (s in b.live <==> a.live[s].view.state != CLOSED))
    && (forall s :: s in a.live && s !in a.control[..k] ==> s in b.live)
    && (forall s :: s in a.live && s !in a.control[..k] ==>
          b.ever[s] == a.live[s] || (k < |a.control| && s == a.control[k] && b.ever[s] == Rewound(a.live[s])))
  }

  /** user_tcp_write_acklist has served the first `k` streams of its list. */
  ghost predicate AcksDone(a: Stack, b: Stack, ts: u32, k: nat) {
    && a.live.Keys == b.live.Keys <= b.ever.Keys && k <= |a.acks|
    && b.acks == StillOwing(a.acks, a.live, a.room, ts, k) + a.acks[k..]
    && b.log == a.log + AckLog(a.acks, a.live, a.room, k) && b.room == AckRoom(a.acks, a.live, a.room, k)
    && (forall j :: 0 <= j < k ==> a.acks[j] in a.live)
    && (forall j :: 0 <= j < k ==>
          b.ever[a.acks[j]] == Acked(a.live[a.acks[j]], AckRoom(a.acks, a.live, a.room, j), ts))
    && (forall s :: s in a.live && s !in a.acks[..k] ==> b.ever[s] == a.live[s])
  }

  /** user_tcp_write_datalist has served the first `k` streams of its list. */
  ghost predicate DataDone(a: Stack, b: Stack, ts: u32, thresh: nat, plans: seq<FlushPlan>, k: nat) {
    && a.live.Keys == b.live.Keys <= b.ever.Keys && k <= |a.data| && k <= thresh && k <= |plans|
    && NoneUnsent(a.data, a.live, plans, a.room, k - 1)
    && var last := k > 0 && Unsent(a.data, a.live, plans, a.room, k - 1);
    && (k == |a.data| || k == thresh || last)
    && b.data == (if last then a.data[k..] + [a.data[k - 1]] else a.data[k..])
    && b.log == a.log + DataLog(a.data, a.live, plans, a.room, k)
    && b.room == DataRoom(a.data, a.live, plans, a.room, k)
    && (forall j :: 0 <= j < k ==> a.data[j] in a.live)
    && (forall j :: 0 <= j < k ==>
          b.ever[a.data[j]] == DataSent(a.live[a.data[j]], plans[j], DataRoom(a.data, a.live, plans, a.room, j), ts))
    && (forall s :: s in a.live && s !in a.data[..k] ==> b.ever[s] == a.live[s])
  }

  /** How many timers the scan may handle: none if it is not due. */
  ghost function DueOnes(a: Stack, ts: u32, limit: int): (n: nat)
    ensures n <= |a.due|
  {
    if !a.running || Signed(Wrap(ts - a.now)) < 0 then 0 else Clamp(limit, |a.due|)
  }

  /** CheckRtmTimeout has handled all timers that it may. */
  ghost predicate ScanDone(a: Stack, b: Stack, ts: u32, limit: int) {
    && Silent(a, b) && a.live.Keys <= b.ever.Keys
    && forall s :: s in a.live ==>
      ScannedOne(a.live[s], b.ever[s], s in b.live, s in a.due[..DueOnes(a, ts, limit)])
  }

  /** CheckTimewaitExpire has swept the first `k` streams of its list. */
  ghost predicate SweepDone(a: Stack, b: Stack, ts: u32, limit: int, k: nat) {
    && Silent(a, b) && a.live.Keys <= b.ever.Keys && k <= Clamp(limit, |a.waiting|)
    && (k == Clamp(limit, |a.waiting|) ||
      (a.waiting[k] in a.live && !Expired(ts, a.live[a.waiting[k]].clock.expire)))
    && forall s :: s in a.live ==>
      SweptOne(a.live[s], b.ever[s], s in b.live, s in a.waiting[..k], ts)
  }

  /** CheckConnectionTimeout has closed the first `k` streams of its list. */
  ghost predicate IdleDone(a: Stack, b: Stack, ts: u32, limit: int, k: nat) {
    && Silent(a, b) && a.live.Keys <= b.ever.Keys && k <= Clamp(limit, |a.watched|)
    && (k == Clamp(limit, |a.watched|) ||
      (a.watched[k] in a.live && !IsIdle(ts, a.live[a.watched[k]].clock.active)))
    && forall s :: s in a.live ==>
      IdledOne(a.live[s], b.ever[s], s in b.live, s in a.watched[..k], ts)
  }

  /** The flow table holds streams that have been created, each created once. */
  ghost predicate Known(tcp: Manager, all: seq<Stream>)
    reads tcp`streams
  {
    NoRepeats(all) && forall s :: s in tcp.streams ==> s in all
  }

  /** A pass adds no stream, and nothing happens to those that are no longer in the flow table. */
  ghost predicate Kept(a: Stack, b: Stack) {
    && b.live.Keys <= a.live.Keys <= a.ever.Keys == b.ever.Keys
    && (forall s :: s in a.ever && s !in a.live ==> b.ever[s] == a.ever[s])
    && (forall s :: s in a.live ==> a.ever[s] == a.live[s])
  }

  method ControlTurn(tcp: Manager, all: seq<Stream>, curTs: u32, thresh: nat) returns (ghost k: nat)
    requires tcp.Valid() && Known(tcp, all)
    modifies tcp, tcp.streams
    ensures old(tcp.rtoNowIdx) == 0 ==> tcp.rtoNowIdx == 0
    ensures tcp.Valid() && tcp.streams <= old(tcp.streams)
    ensures Kept(old(StackOf(tcp, all)), StackOf(tcp, all))
    ensures ControlDone(old(StackOf(tcp, all)), StackOf(tcp, all), curTs, thresh, k)
  {
    hide Manager.Queues, Manager.Timers, Whole, Look, Served, Rewound, Replies, Blocked, MaySendFin, Settled, RepliesOf;
    ghost var list, was := tcp.controlList, Wholes(tcp.streams);
    ControlAdmitted(tcp);
    forall i | 0 <= i <= |list|
      ensures RepliesOf(list[..i], was) == Replies(list[..i])
    {
      SameReplies(list[..i], tcp.streams);
    }
    var cnt;
    cnt, k := WriteControlList(tcp, curTs, thresh);
    forall s | s in list[..k]
      ensures Whole(s) == Served(was[s], curTs) && (s in tcp.streams <==> was[s].view.state != CLOSED)
    {
      SettledIs(s, was[s], curTs, tcp.streams);
    }
  }

  lemma SettledIs(s: Stream, c: Conn, ts: u32, streams: set<Stream>)
    requires Settled(s, c, ts, streams)
    ensures Whole(s) == Served(c, ts) && (s in streams <==> c.view.state != CLOSED)
  {
    Shows(s);
    ControlKeepsState(c, ts);
  }

  lemma ControlKeepsState(c: Conn, ts: u32)
    ensures Served(c, ts).view.state == c.view.state
  {}

  method AckTurn(tcp: Manager, all: seq<Stream>, curTs: u32, thresh: nat)
    requires tcp.Valid() && Known(tcp, all)
    modifies tcp, tcp.streams
    ensures old(tcp.rtoNowIdx) == 0 ==> tcp.rtoNowIdx == 0
    ensures tcp.Valid() && tcp.streams == old(tcp.streams)
    ensures Kept(old(StackOf(tcp, all)), StackOf(tcp, all))
    ensures AcksDone(old(StackOf(tcp, all)), StackOf(tcp, all), curTs, Least(thresh, |old(tcp.ackList)|))
  {
    hide Manager.Queues, Manager.Timers, Whole, Look, Acked, StillOwing, AckLog, AckRoom, Owed;
    var cnt := WriteAckList(tcp, curTs, thresh);
  }

  method DataTurn(tcp: Manager, all: seq<Stream>, curTs: u32, thresh: nat, plans: seq<FlushPlan>)
    returns (ghost k: nat)
    requires tcp.Valid() && Known(tcp, all) && |plans| >= |tcp.sendList|
    modifies tcp, tcp.streams
    ensures old(tcp.rtoNowIdx) == 0 ==> tcp.rtoNowIdx == 0
    ensures tcp.Valid() && tcp.streams == old(tcp.streams)
    ensures Kept(old(StackOf(tcp, all)), StackOf(tcp, all))
    ensures DataDone(old(StackOf(tcp, all)), StackOf(tcp, all), curTs, thresh, plans, k)
  {
    hide Manager.Queues, Manager.Timers, Whole, Look, DataSent, DataLog, DataRoom, Unsent, NoneUnsent, NextAfter;
    var cnt;
    cnt, k := WriteDataList(tcp, curTs, thresh, plans);
  }

  /** A slot of the wheel holds no more streams than there are. */
  lemma SlotIsShort(tcp: Manager, all: seq<Stream>)
    requires tcp.Valid() && Known(tcp, all)
    ensures |CurrentSlot(tcp)| <= |all| && forall s :: s in CurrentSlot(tcp) ==> s in tcp.streams
  {
    hide Manager.Queues;
    WheelSize(tcp);
    SlotAdmitted(tcp, tcp.rtoNowIdx);
    NoLonger(CurrentSlot(tcp), all);
  }

  lemma {:induction false} NoLonger(a: seq<Stream>, b: seq<Stream>)
    requires NoRepeats(a) && NoRepeats(b) && forall x :: x in a ==> x in b
    ensures |a| <= |b|
  {
    if a != [] {
      WithoutKeeps(b, a[0]);
      NoLonger(a[1..], Without(b, a[0]));
    }
  }

  /** The scan is due and meets a failing stream among those that it may handle. */
  ghost predicate ScanFails(a: Stack, ts: u32, limit: int) {
    a.running && Signed(Wrap(ts - a.now)) >= 0 && SomeFails(a.due, a.live, limit)
  }

  ghost predicate SomeFails(due: seq<Stream>, live: map<Stream, Conn>, limit: int) {
    exists j :: 0 <= j < |due| && j < limit && due[j] in live && Fails(live[due[j]])
  }

  /** Whether the scan fails or not: what a timer does to a stream. */
  ghost predicate ScanTouches(a: Stack, b: Stack) {
    && a.live.Keys <= b.ever.Keys
    && forall s :: s in a.live ==>
      (s in b.live && b.ever[s].view == a.live[s].view) || ScannedOne(a.live[s], b.ever[s], s in b.live, true)
  }

  method ScanTurn(tcp: Manager, all: seq<Stream>, curTs: u32, limit: int) returns (ok: bool)
    requires tcp.Valid() && Known(tcp, all)
    modifies tcp, tcp.streams
    ensures tcp.Valid() && tcp.streams <= old(tcp.streams)
    ensures old(tcp.rtoNowIdx) == 0 && limit > |all| ==> tcp.rtoNowIdx == 0
    ensures Kept(old(StackOf(tcp, all)), StackOf(tcp, all))
    ensures ok <==> !ScanFails(old(StackOf(tcp, all)), curTs, limit)
    ensures ok ==> ScanDone(old(StackOf(tcp, all)), StackOf(tcp, all), curTs, limit)
    ensures ScanTouches(old(StackOf(tcp, all)), StackOf(tcp, all))
  {
    hide Manager.Valid, Whole, ScanFails, ScanDone, ScanTouches, NoneFails, Scanned, Wrap, Signed;
    ghost var a, slot := StackOf(tcp, all), CurrentSlot(tcp);
    SlotIsShort(tcp, all);
    FailsIff(tcp, all, curTs, limit);
    ghost var n;
    ok, n := CheckRtmTimeout(tcp, curTs, limit);
    TouchedBy(tcp, all, a, slot[..n], if ok then {} else {slot[n]});
    if ok {
      DoneBy(tcp, all, a, slot[..n], curTs, limit);
    }
  }

  lemma FailsIff(tcp: Manager, all: seq<Stream>, ts: u32, limit: int)
    requires tcp.Valid() && Known(tcp, all)
    ensures ScanFails(StackOf(tcp, all), ts, limit) <==>
      !(tcp.rtoListCnt == 0 || Signed(Wrap(ts - tcp.rtoNowTs)) < 0 || NoneFails(CurrentSlot(tcp), limit))
  {
    hide Manager.Valid, Whole, SomeFails, NoneFails, Wrap, Signed;
    SlotIsShort(tcp, all);
    SomeFailsIff(CurrentSlot(tcp), tcp.streams, limit);
  }

  lemma SomeFailsIff(slot: seq<Stream>, streams: set<Stream>, limit: int)
    requires forall s :: s in slot ==> s in streams
    ensures SomeFails(slot, Wholes(streams), limit) <==> !NoneFails(slot, limit)
  {
    hide Whole, Fails;
    assert forall j :: 0 <= j < |slot| ==> slot[j] in slot;
  }

  lemma TouchedBy(tcp: Manager, all: seq<Stream>, a: Stack, hit: seq<Stream>, but: set<Stream>)
    requires Known(tcp, all) && a.live.Keys <= a.ever.Keys == (set s | s in all) && Scanned(tcp, a.live, hit, but)
    ensures ScanTouches(a, StackOf(tcp, all))
  {
    hide Whole, ScannedOne;
    forall s | s in a.live && s !in but
      ensures ScannedOne(a.live[s], Whole(s), s in tcp.streams, true) || (Whole(s) == a.live[s] && s in tcp.streams)
    {
      SpareOrHit(a.live[s], Whole(s), s in tcp.streams, s in hit);
    }
  }

  lemma DoneBy(tcp: Manager, all: seq<Stream>, a: Stack, hit: seq<Stream>, ts: u32, limit: int)
    requires Known(tcp, all) && a.live.Keys <= a.ever.Keys == (set s | s in all) && Scanned(tcp, a.live, hit, {})
    requires hit == a.due[..DueOnes(a, ts, limit)] && Silent(a, StackOf(tcp, all))
    ensures ScanDone(a, StackOf(tcp, all), ts, limit)
  {
    hide Whole, ScannedOne, DueOnes;
  }

  lemma SpareOrHit(c: Conn, d: Conn, here: bool, hit: bool)
    ensures ScannedOne(c, d, here, hit) ==> ScannedOne(c, d, here, true) || (d == c && here)
  {}

  method SweepTurn(tcp: Manager, all: seq<Stream>, curTs: u32, limit: int) returns (ghost k: nat)
    requires tcp.Valid() && Known(tcp, all)
    modifies tcp, tcp.streams
    ensures old(tcp.rtoNowIdx) == 0 ==> tcp.rtoNowIdx == 0
    ensures tcp.Valid() && tcp.streams <= old(tcp.streams)
    ensures Kept(old(StackOf(tcp, all)), StackOf(tcp, all))
    ensures SweepDone(old(StackOf(tcp, all)), StackOf(tcp, all), curTs, limit, k)
  {
    hide Manager.Queues, Manager.Timers, Whole, SweptOne, Expired;
    EachClock(tcp.streams);
    WaitersAdmitted(tcp);
    k := CheckTimewaitExpire(tcp, curTs, limit);
  }

  lemma EachClock(streams: set<Stream>)
    ensures forall s :: s in streams ==>
      Whole(s).clock.expire == s.tsTwExpire && Whole(s).clock.active == s.lastActiveTs
  {}

  method IdleTurn(tcp: Manager, all: seq<Stream>, curTs: u32, limit: int) returns (ghost k: nat)
    requires tcp.Valid() && Known(tcp, all)
    modifies tcp, tcp.streams
    ensures old(tcp.rtoNowIdx) == 0 ==> tcp.rtoNowIdx == 0
    ensures tcp.Valid() && tcp.streams <= old(tcp.streams)
    ensures Kept(old(StackOf(tcp, all)), StackOf(tcp, all))
    ensures IdleDone(old(StackOf(tcp, all)), StackOf(tcp, all), curTs, limit, k)
  {
    hide Manager.Queues, Manager.Timers, Whole, IdledOne, IsIdle;
    EachClock(tcp.streams);
    WatchedAdmitted(tcp);
    k := CheckConnectionTimeout(tcp, curTs, limit);
  }
}
