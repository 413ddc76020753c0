/** The timer checks of src/user_timer.c: retransmission, TIME_WAIT and inactivity. */
module Scheduling {
  import opened Common
  import opened SeqArith
  import opened TcpState
  import opened SchedLists
  import opened Lifecycle
  import opened Sending

  // ---- retransmission

  /** UpdateRetransmissionTimer: the timer runs exactly while something is unacknowledged. */
  method UpdateRetransmissionTimer(tcp: Manager, s: Stream, curTs: u32)
    requires tcp.Timers() && s in tcp.streams && !s.onTimewaitList
    modifies tcp`rtoList, tcp`rtoListCnt, tcp`rtoNowIdx, tcp`rtoNowTs, s`onRtoIdx, s`nrtx, s`tsRto
    ensures old(tcp.rtoNowIdx) == 0 ==> tcp.rtoNowIdx == 0
    ensures tcp.Timers() && s.nrtx == 0 && (s.onRtoIdx >= 0 <==> SeqGt(s.sndNxt, s.sndUna))
    ensures Whole(s) == Rewinding(old(Whole(s)))
  {
    hide Manager.Timers, Whole, SeqGt;
    ShowsNumbers(s);
    ForgetRetries(s);
    if s.onRtoIdx >= 0 {
      StopTimer(tcp, s);
    }
    ShowsTimed(s);
    if SeqGt(s.sndNxt, s.sndUna) {
      s.tsRto := Wrap(curTs + s.rto);
      StartTimer(tcp, s);
    }
  }

  method ForgetRetries(s: Stream)
    modifies s`nrtx
    ensures s.nrtx == 0 && Whole(s) == old(Whole(s)).(clock := old(Whole(s)).clock.(nrtx := 0))
  {
    hide Look, NumbersOf, LinksOf, InboxOf, EndingOf, OwnerOf;
    s.nrtx := 0;
  }

  method StopTimer(tcp: Manager, s: Stream)
    requires tcp.Timers() && s in tcp.streams
    modifies tcp`rtoList, tcp`rtoListCnt, s`onRtoIdx
    ensures tcp.Timers() && s.onRtoIdx < 0 && Whole(s) == Stopped(old(Whole(s)))
    ensures |tcp.rtoList| == RTO_HASH + 1 && tcp.rtoNowIdx < RTO_HASH
    ensures tcp.rtoList == if old(s.onRtoIdx) < 0 then old(tcp.rtoList)
      else old(tcp.rtoList)[old(s.onRtoIdx) := Without(old(tcp.rtoList)[old(s.onRtoIdx)], s)]
  {
    hide Manager.TimeoutOk, Manager.TimewaitOk, Look, NumbersOf, LinksOf, InboxOf, EndingOf, OwnerOf;
    tcp.RemoveFromRtoList(s);
  }

  /** The connection is over; its state moves to CLOSED, and nothing else of it changes. */
  method Close(tcp: Manager, s: Stream, reason: CloseReason)
    requires tcp.Timers() && s in tcp.streams
    modifies s`state, s`closeReason
    ensures tcp.Timers() && s.state == CLOSED && s.closeReason == reason
    ensures Look(s) == old(Look(s)).(state := CLOSED) && Whole(s) == Over(old(Whole(s)), reason)
  {
    hide Manager.RtoOk, Manager.TimeoutOk, Manager.TimewaitOk, NumbersOf, LinksOf, ClockOf, InboxOf, OwnerOf;
    s.state := CLOSED;
    s.closeReason := reason;
  }

  /** The states for which HandleRTO knows what to repeat. */
  predicate Repeats(s: State) {
    s == SYN_SENT || s == SYN_RCVD || s == ESTABLISHED || s == CLOSE_WAIT || s == LAST_ACK || s == FIN_WAIT_1 ||
      s == CLOSING
  }

  /** The states in which a FIN is to be repeated. */
  predicate FinPending(s: State) {
    s == FIN_WAIT_1 || s == CLOSING || s == LAST_ACK
  }

  /** Whether the timeout makes the stream wait for the send list. */
  predicate RepeatsData(c: Conn) {
    c.view.state == ESTABLISHED || c.view.state == CLOSE_WAIT ||
      (FinPending(c.view.state) && SeqLt(c.num.una, c.view.fss))
  }

  /** No retries are left. */
  predicate UsedUp(c: Conn) {
    c.clock.nrtx >= MAX_RTX || (c.view.state == SYN_SENT && c.clock.nrtx >= MAX_SYN_RETRY)
  }

  /** ... and the stream is not kept for an application. */
  predicate Leaves(c: Conn) {
    UsedUp(c) &&
    (!c.owner.socketMap || (c.clock.nrtx >= MAX_RTX && c.view.state.Code() < ESTABLISHED.Code()))
  }

  function Counted(c: Conn): Conn {
    c.(clock := c.clock.(nrtx := c.clock.nrtx + 1))
  }

  /** Without retries the connection has failed or is lost. */
  function GivenUp(c: Conn): Conn {
    var d := if c.clock.nrtx < MAX_RTX then Counted(c) else c;
    var e := Over(d, if c.view.state.Code() < ESTABLISHED.Code() then CONN_FAIL else CONN_LOST);
    if Leaves(c) then Off(e) else e
  }

  /** With a retry left sending starts over at `snd_una`; a FIN waits until the data is out. */
  function Again(c: Conn): Conn {
    var d := c.(num := c.num.(nxt := c.num.una));
    if !RepeatsData(c) then Queued(d) else if FinPending(c.view.state) then Loaded(Postponed(d)) else Loaded(d)
  }

  /** The control packet waits for something else to be sent. */
  function Postponed(c: Conn): Conn {
    c.(links := c.links.(controlling := false, waiting := true))
  }

  /** What a timeout makes of a stream. */
  function RunOutOnce(c: Conn): Conn {
    if UsedUp(c) then GivenUp(c) else Again(Counted(c))
  }

  /** An assertion of HandleRTO is going to fail for this stream: retries are left, and its state has
      nothing to repeat, or data is to be repeated that never was buffered. */
  predicate Fails(c: Conn) {
    c.clock.nrtx < MAX_RTX && (!Repeats(c.view.state) || (RepeatsData(c) && !c.owner.sndbuf))
  }

  /** A timeout that meets no failing assertion closes the connection exactly if its retries are used up;
      otherwise the state stays, the retry is counted, and the stream waits on some list to send from
      `snd_una` on. */
  lemma TimeoutClosesIff(c: Conn)
    requires !Fails(c)
    ensures var d := RunOutOnce(c);
      && (d.view.state == CLOSED <==> UsedUp(c))
      && (UsedUp(c) ==> d.view == c.view.(state := CLOSED))
      && (!UsedUp(c) ==> d.view == c.view && d.clock.nrtx == c.clock.nrtx + 1 && d.num.nxt == d.num.una == c.num.una)
      && (!UsedUp(c) ==> d.links.sending == (c.links.sending || RepeatsData(c)))
      && (!UsedUp(c) && !RepeatsData(c) ==> d.links.controlling)
  {}

  /** The stream is closed, and destroyed unless an application still holds its socket. */
  method CloseOrDrop(tcp: Manager, s: Stream, reason: CloseReason, keep: bool)
    requires tcp.Valid() && s in tcp.streams
    modifies tcp`controlList, tcp`controlListCnt, tcp`sendList, tcp`sendListCnt, tcp`ackList, tcp`ackListCnt
    modifies tcp`rtoList, tcp`rtoListCnt, tcp`timewaitList, tcp`timewaitListCnt, tcp`timeoutList
    modifies tcp`timeoutListCnt, tcp`streams
    modifies s`onControlList, s`onSendList, s`onAckList, s`onRtoIdx, s`onTimewaitList, s`onTimeoutList
    modifies s`state, s`closeReason
    ensures tcp.Valid() && tcp.streams == if keep then old(tcp.streams) else old(tcp.streams) - {s}
    ensures Whole(s) == if keep then Over(old(Whole(s)), reason) else Off(Over(old(Whole(s)), reason))
    ensures keep || old(s.onRtoIdx) < 0 ==> tcp.rtoList == old(tcp.rtoList)
    ensures keep ==> tcp.rtoListCnt == old(tcp.rtoListCnt)
    ensures keep || !old(s.onTimeoutList) ==> tcp.timeoutList == old(tcp.timeoutList)
    ensures !keep && old(s.onTimewaitList) ==> tcp.timewaitList == Without(old(tcp.timewaitList), s)
    ensures old(s.onRtoIdx) < 0 ==> s.onRtoIdx < 0
  {
    hide Manager.Queues, Manager.Timers, Look, Whole, Over, Off, Without;
    Close(tcp, s, reason);
    if !keep {
      Drop(tcp, s);
    }
  }

  /** Lines 190-210 of src/user_timer.c. */
  method GiveUp(tcp: Manager, s: Stream)
    requires tcp.Valid() && s in tcp.streams && s.onRtoIdx < 0 && s.nrtx >= MAX_RTX
    modifies tcp, s
    ensures tcp.Valid() && tcp.log == old(tcp.log) && tcp.room == old(tcp.room)
    ensures tcp.rtoList == old(tcp.rtoList) && tcp.rtoNowIdx == old(tcp.rtoNowIdx) && tcp.rtoNowTs == old(tcp.rtoNowTs)
    ensures tcp.streams == if Leaves(old(Whole(s))) then old(tcp.streams) - {s} else old(tcp.streams)
    ensures Whole(s) == GivenUp(old(Whole(s))) && s.onRtoIdx < 0
  {
    hide Manager.Valid, Look, Whole, Over, Off;
    Shows(s);
    ShowsTimed(s);
    ShowsOwner(s);
    if s.state.Code() < ESTABLISHED.Code() {
      CloseOrDrop(tcp, s, CONN_FAIL, false);
    } else {
      CloseOrDrop(tcp, s, CONN_LOST, s.hasSocketMap);
    }
  }

  /** HandleRTO for a stream whose timer has been taken off the wheel: the connection is closed exactly if
      its retries are used up, and starts to send over otherwise. The result `ok` is false if an assertion
      of the source fails. */
  method HandleRto(tcp: Manager, s: Stream) returns (r: int, ok: bool)
    requires tcp.Valid() && s in tcp.streams && s.onRtoIdx < 0
    modifies tcp, s
    ensures tcp.Valid() && tcp.rtoList == old(tcp.rtoList) && tcp.rtoNowIdx == old(tcp.rtoNowIdx) &&
      tcp.rtoNowTs == old(tcp.rtoNowTs)
    ensures tcp.log == old(tcp.log) && tcp.room == old(tcp.room) && s.onRtoIdx < 0
    ensures ok <==> !Fails(old(Whole(s)))
    ensures ok ==> Whole(s) == RunOutOnce(old(Whole(s))) && (r == 0 <==> !UsedUp(old(Whole(s))))
    ensures tcp.streams == if ok && Leaves(old(Whole(s))) then old(tcp.streams) - {s} else old(tcp.streams)
    ensures MayClose(old(Look(s)), Look(s)) && (!ok ==> Look(s) == old(Look(s)))
    ensures s.nrtx == old(s.nrtx) + if old(s.nrtx) < MAX_RTX then 1 else 0
    ensures ok ==> (s.state == CLOSED <==>
      old(s.nrtx) >= MAX_RTX || (old(s.state) == SYN_SENT && old(s.nrtx) >= MAX_SYN_RETRY))
    ensures s.state != old(s.state) ==>
      s.closeReason == if old(s.state).Code() < ESTABLISHED.Code() then CONN_FAIL else CONN_LOST
    ensures ok && r == 0 ==> s.sndNxt == s.sndUna && (s.onSendList || s.onControlList)
  {
    hide Manager.Queues, Manager.Timers, MayClose, Look, Whole, GivenUp, Again, Counted, RunOutOnce, Repeats;
    hide RepeatsData, Fails, Leaves;
    ghost var c := Whole(s);
    Shows(s);
    ShowsTimed(s);
    ClosesOrNot(c.view);
    GivesReason(c);
    if !Fails(c) {
      TimeoutClosesIff(c);
    }
    r, ok := TakeTimeout(tcp, s);
    Shows(s);
    ShowsTimed(s);
    ShowsNumbers(s);
    ShowsLinks(s);
    ShowsReason(s);
  }

  lemma GivesReason(c: Conn)
    ensures UsedUp(c) ==>
      RunOutOnce(c).ending.reason == (if c.view.state.Code() < ESTABLISHED.Code() then CONN_FAIL else CONN_LOST) &&
      RunOutOnce(c).clock.nrtx == c.clock.nrtx + if c.clock.nrtx < MAX_RTX then 1 else 0
  {}

  /** ... with the stream as a value. */
  method TakeTimeout(tcp: Manager, s: Stream) returns (r: int, ok: bool)
    requires tcp.Valid() && s in tcp.streams && s.onRtoIdx < 0
    modifies tcp, s
    ensures tcp.Valid() && tcp.rtoList == old(tcp.rtoList) && tcp.rtoNowIdx == old(tcp.rtoNowIdx) &&
      tcp.rtoNowTs == old(tcp.rtoNowTs)
    ensures tcp.log == old(tcp.log) && tcp.room == old(tcp.room) && s.onRtoIdx < 0
    ensures ok <==> !Fails(old(Whole(s)))
    ensures ok ==> Whole(s) == RunOutOnce(old(Whole(s))) && (r == 0 <==> !UsedUp(old(Whole(s))))
    ensures !ok ==> Look(s) == old(Look(s)) && s.nrtx == old(s.nrtx) + 1 && old(s.nrtx) < MAX_RTX
    ensures tcp.streams == if ok && Leaves(old(Whole(s))) then old(tcp.streams) - {s} else old(tcp.streams)
  {
    hide Manager.Queues, Manager.Timers, Look, Whole, Again, Counted, Off, Over, RepeatsData;
    ghost var c := Whole(s);
    Shows(s);
    ShowsTimed(s);
    ShowsOwner(s);
    CountedKeeps(c);
    if s.nrtx < MAX_RTX {
      CountRetry(s);
    } else {
      GiveUp(tcp, s);
      return -1, true;
    }
    if s.state == SYN_SENT && s.nrtx > MAX_SYN_RETRY {
      CloseOrDrop(tcp, s, CONN_FAIL, s.hasSocketMap);
      return -1, true;
    }
    if !Repeats(s.state) {
      return -1, false;
    }
    ok := Repeat(tcp, s);
    r := if ok then 0 else -1;
  }

  method CountRetry(s: Stream)
    modifies s`nrtx
    ensures s.nrtx == old(s.nrtx) + 1 && Whole(s) == Counted(old(Whole(s)))
  {
    hide Look, NumbersOf, LinksOf, InboxOf, EndingOf, OwnerOf;
    s.nrtx := s.nrtx + 1;
  }

  lemma CountedKeeps(c: Conn)
    ensures var d := Counted(c);
      d.view == c.view && d.owner == c.owner && d.num == c.num && (RepeatsData(d) <==> RepeatsData(c))
    ensures c.view.state == SYN_SENT || c.view.state == SYN_RCVD ==> !RepeatsData(c)
  {}

  /** Lines 317-352: sending starts over at `snd_una`; a FIN waits until the data is out. The result
      is false if there is no send buffer to repeat data from. */
  method Repeat(tcp: Manager, s: Stream) returns (ok: bool)
    requires tcp.Valid() && s in tcp.streams && Repeats(s.state)
    modifies s`sndNxt, s`controlListWaiting, s`onSendList, s`onControlList
    modifies tcp`sendList, tcp`sendListCnt, tcp`controlList, tcp`controlListCnt
    ensures tcp.Valid() && s.sndNxt == s.sndUna && (ok <==> !RepeatsData(old(Whole(s))) || s.hasSndbuf)
    ensures ok ==> Whole(s) == Again(old(Whole(s)))
  {
    hide Manager.Queues, Manager.Timers, Look, Whole, Queued, Loaded, Postponed;
    Shows(s);
    ShowsNumbers(s);
    GoBack(s);
    if s.state == ESTABLISHED || s.state == CLOSE_WAIT {
      if !s.hasSndbuf {
        return false;
      }
      WantSend(tcp, s);
    } else if FinPending(s.state) && SeqLt(s.sndNxt, s.fss) {
      Postpone(tcp, s);
      if !s.hasSndbuf {
        return false;
      }
      WantSend(tcp, s);
    } else {
      WantControl(tcp, s);
    }
    return true;
  }

  /** Line 317. */
  method GoBack(s: Stream)
    modifies s`sndNxt
    ensures s.sndNxt == s.sndUna && Whole(s) == old(Whole(s)).(num := Numbers(s.sndUna, s.sndUna))
  {
    hide Look, LinksOf, ClockOf, InboxOf, EndingOf, OwnerOf;
    s.sndNxt := s.sndUna;
  }

  /** Lines 336-340. */
  method Postpone(tcp: Manager, s: Stream)
    requires tcp.Queues() && s in tcp.streams
    modifies tcp`controlList, tcp`controlListCnt, s`onControlList, s`controlListWaiting
    ensures tcp.Queues() && !s.onControlList && s.controlListWaiting && Whole(s) == Postponed(old(Whole(s)))
  {
    hide Manager.ControlOk, Manager.SendOk, Manager.AckOk, Look, NumbersOf, ClockOf, InboxOf, EndingOf, OwnerOf;
    tcp.RemoveFromControlList(s);
    s.controlListWaiting := true;
  }

  lemma ClosesOrNot(v: View)
    ensures MayClose(v, v) && MayClose(v, v.(state := CLOSED))
  {}

  /** A stream that the scan has handled is as its timeout left it, and gone if nobody holds it; any other
      is as it was, but for its slot. */
  ghost predicate ScannedOne(c: Conn, d: Conn, here: bool, hit: bool) {
    if hit then !Fails(c) && d == RunOutOnce(Stopped(c)) && here == !Leaves(Stopped(c)) else d == c && here
  }

  /** This holds of all streams but those of `but`, at which an assertion fails. */
  ghost predicate Scanned(tcp: Manager, was: map<Stream, Conn>, hit: seq<Stream>, but: set<Stream>)
    reads tcp`streams, was.Keys
  {
    && tcp.streams <= was.Keys
    && forall s :: s in was ==> if s in but then s in tcp.streams && Whole(s).view == was[s].view
      else ScannedOne(was[s], Whole(s), s in tcp.streams, s in hit)
  }

  /** A timeout closes a stream exactly if its retries were used up before; otherwise the stream keeps its
      state and waits to send again. */
  lemma ScanClosesIff(c: Conn, d: Conn, here: bool, hit: bool)
    requires ScannedOne(c, d, here, hit)
    ensures MayClose(c.view, d.view) && (d.view.state == CLOSED <==> c.view.state == CLOSED || (hit && UsedUp(c)))
    ensures hit && !UsedUp(c) ==>
      d.view == c.view && d.num.nxt == d.num.una && (d.links.sending || d.links.controlling) && here
  {
    StoppedKeeps(c);
    if hit {
      TimeoutClosesIff(Stopped(c));
    }
  }

  lemma StoppedKeeps(c: Conn)
    ensures var d := Stopped(c);
      d.view == c.view && (Fails(d) <==> Fails(c)) && (UsedUp(d) <==> UsedUp(c)) && (Leaves(d) <==> Leaves(c))
  {}

  /** Lines 415-421 for the first stream of the current slot. */
  method RunOut(tcp: Manager, s: Stream) returns (ok: bool)
    requires tcp.Valid() && tcp.rtoNowIdx < RTO_HASH && |tcp.rtoList| == RTO_HASH + 1
    requires s in tcp.streams && tcp.rtoList[tcp.rtoNowIdx] != [] && s == tcp.rtoList[tcp.rtoNowIdx][0]
    modifies tcp, s
    ensures tcp.Valid() && tcp.rtoNowIdx == old(tcp.rtoNowIdx) && tcp.rtoNowTs == old(tcp.rtoNowTs)
    ensures tcp.log == old(tcp.log) && tcp.room == old(tcp.room)
    ensures tcp.rtoList == old(tcp.rtoList)[tcp.rtoNowIdx := old(tcp.rtoList)[tcp.rtoNowIdx][1..]]
    ensures s.onRtoIdx < 0 <= old(s.onRtoIdx) && MayClose(old(Look(s)), Look(s))
    ensures ok <==> !Fails(old(Whole(s)))
    ensures ok ==> Whole(s) == RunOutOnce(Stopped(old(Whole(s))))
    ensures !ok ==> Look(s) == old(Look(s))
    ensures tcp.streams == if ok && Leaves(Stopped(old(Whole(s)))) then old(tcp.streams) - {s} else old(tcp.streams)
  {
    hide Manager.Queues, Manager.Timers, MayClose, Fails, Whole, Look, RunOutOnce, Leaves, UsedUp, RepeatsData;
    StoppedKeeps(Whole(s));
    FirstOfSlot(tcp, tcp.rtoNowIdx);
    StopTimer(tcp, s);
    var r;
    r, ok := HandleRto(tcp, s);
  }

  /** ... which keeps what is said of the scan. */
  method ScanFirst(tcp: Manager, s: Stream, ghost was: map<Stream, Conn>, ghost hit: seq<Stream>) returns (ok: bool)
    requires tcp.Valid() && Scanned(tcp, was, hit, {}) && tcp.rtoNowIdx < RTO_HASH && |tcp.rtoList| == RTO_HASH + 1
    requires s in tcp.streams && tcp.rtoList[tcp.rtoNowIdx] != [] && s == tcp.rtoList[tcp.rtoNowIdx][0] && s !in hit
    modifies tcp, s
    ensures tcp.Valid() && tcp.streams <= old(tcp.streams) && tcp.rtoNowIdx == old(tcp.rtoNowIdx) &&
      tcp.rtoNowTs == old(tcp.rtoNowTs)
    ensures tcp.log == old(tcp.log) && tcp.room == old(tcp.room)
    ensures old(tcp.streams) - {s} <= tcp.streams
    ensures tcp.rtoList == old(tcp.rtoList)[tcp.rtoNowIdx := old(tcp.rtoList)[tcp.rtoNowIdx][1..]]
    ensures ok <==> !Fails(old(Whole(s)))
    ensures if ok then Scanned(tcp, was, hit + [s], {}) else Scanned(tcp, was, hit, {s})
  {
    hide Manager.Queues, Manager.Timers, MayClose, Fails, Whole, Look, RunOutOnce, Leaves, Stopped;
    FirstOfSlot(tcp, tcp.rtoNowIdx);
    Shows(s);
    ok := RunOut(tcp, s);
    Shows(s);
  }

  /** The slot of the wheel that is due. */
  ghost function CurrentSlot(tcp: Manager): seq<Stream>
    reads tcp`rtoList, tcp`rtoNowIdx
  {
    if tcp.rtoNowIdx < |tcp.rtoList| then tcp.rtoList[tcp.rtoNowIdx] else []
  }

  /** None of the first `n` streams of a slot makes an assertion fail. */
  ghost predicate NoneFails(slot: seq<Stream>, n: int)
    reads slot
  {
    forall j :: 0 <= j < |slot| && j < n ==> !Fails(Whole(slot[j]))
  }

  /** Nothing has happened to any stream that is not in the list. */
  twostate predicate Elsewhere(tcp: Manager, streams: set<Stream>, slot: seq<Stream>)
    reads tcp`streams, streams
  {
    forall x :: x in streams && x !in slot ==> x in tcp.streams && unchanged(x)
  }

  /** How many streams of a slot may be handled. */
  function Clamp(n: int, slot: nat): (k: nat)
    ensures k <= slot
  {
    if n < 0 then 0 else Least(n, slot)
  }

  /** Lines 403-428: the streams in the current slot, from the front, until `thresh` are counted; `n` of
      them are handled without a failing assertion. */
  method DrainSlot(tcp: Manager, thresh: int, cnt0: int, ghost was: map<Stream, Conn>, ghost hit: seq<Stream>)
    returns (cnt: int, ok: bool, ghost n: nat)
    requires tcp.Valid() && Scanned(tcp, was, hit, {}) && (cnt0 < thresh ==> hit == [])
    modifies tcp, tcp.streams
    ensures tcp.log == old(tcp.log) && tcp.room == old(tcp.room)
    ensures tcp.Valid() && tcp.streams <= old(tcp.streams) && tcp.rtoNowIdx == old(tcp.rtoNowIdx) &&
      tcp.rtoNowTs == old(tcp.rtoNowTs)
    ensures tcp.rtoNowIdx < RTO_HASH && |tcp.rtoList| == RTO_HASH + 1
    ensures n <= Clamp(thresh - cnt0, |old(CurrentSlot(tcp))|) &&
      (ok <==> n == Clamp(thresh - cnt0, |old(CurrentSlot(tcp))|))
    ensures !ok ==> Fails(old(Whole(CurrentSlot(tcp)[n])))
    ensures Scanned(tcp, was, hit + old(CurrentSlot(tcp))[..n], if ok then {} else {old(CurrentSlot(tcp))[n]})
    ensures ok && cnt <= thresh ==> tcp.rtoList[tcp.rtoNowIdx] == []
    ensures cnt >= cnt0 && (ok <==> old(NoneFails(CurrentSlot(tcp), thresh - cnt0)))
    ensures ok && thresh > cnt0 + |old(CurrentSlot(tcp))| ==> cnt == cnt0 + |old(CurrentSlot(tcp))|
    ensures Elsewhere(tcp, old(tcp.streams), old(CurrentSlot(tcp)))
  {
    hide Manager.Queues, Manager.Timers, Scanned, Fails, Whole;
    WheelSize(tcp);
    var k := tcp.rtoNowIdx;
    SlotAdmitted(tcp, k);
    ghost var streams, init := tcp.streams, tcp.rtoList[k];
    cnt, ok, n := cnt0, true, 0;
    assert hit + init[..0] == hit;
    while tcp.rtoList[k] != []
      invariant tcp.Valid() && tcp.streams <= streams && k == tcp.rtoNowIdx == old(tcp.rtoNowIdx) &&
        tcp.rtoNowTs == old(tcp.rtoNowTs)
      invariant k < RTO_HASH && |tcp.rtoList| == RTO_HASH + 1 && ok
      invariant 0 <= n <= |init| && tcp.rtoList[k] == init[n..] && cnt == cnt0 + n && (n > 0 ==> cnt <= thresh)
      invariant Scanned(tcp, was, hit + init[..n], {})
      invariant Elsewhere(tcp, streams, init)
      invariant tcp.log == old(tcp.log) && tcp.room == old(tcp.room)
      invariant forall j :: 0 <= j < n ==> !Fails(old(Whole(init[j])))
      invariant forall j :: n <= j < |init| ==> Whole(init[j]) == old(Whole(init[j]))
      decreases |tcp.rtoList[k]|
    {
      cnt := cnt + 1;
      if cnt > thresh {
        break;
      }
      var walk := tcp.rtoList[k][0];
      assert walk == init[n];
      FirstOfSlot(tcp, k);
      NotYet(init, n);
      OneFurther(init, n);
      assert hit + init[..n + 1] == hit + init[..n] + [walk];
      ok := ScanFirst(tcp, walk, was, hit + init[..n]);
      if !ok {
        return;
      }
      n := n + 1;
    }
  }

  lemma SlotAdmitted(tcp: Manager, k: nat)
    requires tcp.Timers() && k <= RTO_HASH && |tcp.rtoList| == RTO_HASH + 1
    ensures NoRepeats(tcp.rtoList[k]) && forall s :: s in tcp.rtoList[k] ==> s in tcp.streams && s.onRtoIdx == k
  {}

  lemma WheelSize(tcp: Manager)
    requires tcp.Timers()
    ensures tcp.rtoNowIdx < RTO_HASH && |tcp.rtoList| == RTO_HASH + 1
  {}

  lemma FirstOfSlot(tcp: Manager, k: nat)
    requires tcp.Timers() && k <= RTO_HASH && |tcp.rtoList| == RTO_HASH + 1 && tcp.rtoList[k] != []
    ensures var s := tcp.rtoList[k][0];
      s in tcp.streams && s.onRtoIdx == k && Without(tcp.rtoList[k], s) == tcp.rtoList[k][1..]
  {
    assert tcp.rtoList[k][0] in tcp.rtoList[k];
  }

  /** How many streams a scan may handle: none if it is not due. */
  ghost function ScanLimit(tcp: Manager, curTs: u32, thresh: int): nat
    reads tcp`rtoList, tcp`rtoListCnt, tcp`rtoNowIdx, tcp`rtoNowTs
  {
    if tcp.rtoListCnt == 0 || Signed(Wrap(curTs - tcp.rtoNowTs)) < 0 then 0 else Clamp(thresh, |CurrentSlot(tcp)|)
  }

  /** CheckRtmTimeout. The result is false if the source would fail an assertion in HandleRTO; up
      to that point, and always otherwise, all lists are as their flags say, and the scan ends. If it is
      due it handles the first `thresh` streams of the slot that is due, and no other stream, however many
      slots it goes on to; it fails exactly if one of these does. With a threshold above the length of that
      slot the wheel does not turn, and no timer of another slot is looked at. */
  method CheckRtmTimeout(tcp: Manager, curTs: u32, thresh: int) returns (ok: bool, ghost n: nat)
    requires tcp.Valid()
    modifies tcp, tcp.streams
    ensures tcp.Valid() && tcp.streams <= old(tcp.streams)
    ensures tcp.log == old(tcp.log) && tcp.room == old(tcp.room)
    ensures n <= old(ScanLimit(tcp, curTs, thresh)) && (ok <==> n == old(ScanLimit(tcp, curTs, thresh)))
    ensures !ok ==> n < |old(CurrentSlot(tcp))| && Fails(old(Whole(CurrentSlot(tcp)[n])))
    ensures n <= |old(CurrentSlot(tcp))| && Scanned(tcp, old(Wholes(tcp.streams)), old(CurrentSlot(tcp))[..n],
      if ok then {} else {old(CurrentSlot(tcp))[n]})
    // a stream is closed only if its timer ran out with all retries used up
    ensures forall s :: s in old(tcp.streams) ==>
      (s.state == CLOSED <==> old(s.state) == CLOSED || (s in old(CurrentSlot(tcp))[..n] && UsedUp(old(Whole(s)))))
    ensures ok <==>
      old(tcp.rtoListCnt) == 0 || Signed(Wrap(curTs - old(tcp.rtoNowTs))) < 0 ||
      old(NoneFails(CurrentSlot(tcp), thresh))
    ensures thresh > |old(CurrentSlot(tcp))| ==>
      tcp.rtoNowIdx == old(tcp.rtoNowIdx) && tcp.rtoNowTs == old(tcp.rtoNowTs) &&
      forall s :: s in old(tcp.streams) && old(s.onRtoIdx) != tcp.rtoNowIdx ==> s in tcp.streams && unchanged(s)
  {
    hide Manager.Queues, Manager.Timers, Scanned, NoneFails, Wrap, Signed, Whole, UsedUp;
    ghost var all, was, slot := tcp.streams, Wholes(tcp.streams), CurrentSlot(tcp);
    EachState(tcp.streams);
    NothingScanned(tcp);
    WheelSize(tcp);
    SlotAdmitted(tcp, tcp.rtoNowIdx);
    ok, n := Scan(tcp, curTs, thresh, was);
    ClosedByScan(tcp, was, slot[..n], if ok then {} else {slot[n]});
  }

  /** ... with the streams as they were before given as values. */
  method Scan(tcp: Manager, curTs: u32, thresh: int, ghost was: map<Stream, Conn>) returns (ok: bool, ghost n: nat)
    requires tcp.Valid() && Scanned(tcp, was, [], {}) && was.Keys == tcp.streams
    modifies tcp, tcp.streams
    ensures tcp.Valid() && tcp.streams <= old(tcp.streams)
    ensures tcp.log == old(tcp.log) && tcp.room == old(tcp.room)
    ensures n <= old(ScanLimit(tcp, curTs, thresh)) && (ok <==> n == old(ScanLimit(tcp, curTs, thresh)))
    ensures !ok ==> n < |old(CurrentSlot(tcp))| && Fails(old(Whole(CurrentSlot(tcp)[n])))
    ensures n <= |old(CurrentSlot(tcp))| &&
      Scanned(tcp, was, old(CurrentSlot(tcp))[..n], if ok then {} else {old(CurrentSlot(tcp))[n]})
    ensures ok <==>
      old(tcp.rtoListCnt) == 0 || Signed(Wrap(curTs - old(tcp.rtoNowTs))) < 0 ||
      old(NoneFails(CurrentSlot(tcp), thresh))
    ensures thresh > |old(CurrentSlot(tcp))| ==>
      tcp.rtoNowIdx == old(tcp.rtoNowIdx) && tcp.rtoNowTs == old(tcp.rtoNowTs) &&
      Elsewhere(tcp, old(tcp.streams), old(CurrentSlot(tcp)))
  {
    hide Manager.Queues, Manager.Timers, Scanned, NoneFails, Wrap, Signed, Whole, Fails;
    ok, n := true, 0;
    ghost var all, slot, hit := tcp.streams, CurrentSlot(tcp), [];
    assert slot[..0] == [];
    if tcp.rtoListCnt == 0 {
      return;
    }
    var cnt := 0;
    ghost var first := true;
    while true
      invariant tcp.Valid() && tcp.streams <= all && Scanned(tcp, was, hit, {}) && ok
      invariant tcp.log == old(tcp.log) && tcp.room == old(tcp.room)
      invariant n <= |slot| && hit == slot[..n]
      invariant first ==> cnt == 0 == n && tcp.rtoNowTs == old(tcp.rtoNowTs) && tcp.rtoNowIdx == old(tcp.rtoNowIdx)
      invariant first ==>
        NoneFails(CurrentSlot(tcp), thresh) == old(NoneFails(CurrentSlot(tcp), thresh)) && tcp.streams == all &&
        CurrentSlot(tcp) == slot && Elsewhere(tcp, all, slot) && unchanged(all)
      invariant !first ==>
        cnt >= thresh && old(NoneFails(CurrentSlot(tcp), thresh)) && thresh <= |slot| &&
        n == old(ScanLimit(tcp, curTs, thresh))
      decreases Signed(Wrap(curTs - tcp.rtoNowTs)) + HALF
    {
      if Signed(Wrap(curTs - tcp.rtoNowTs)) < 0 {
        break;
      }
      if !first {
        NoneAtAll(CurrentSlot(tcp), thresh - cnt);
      }
      ghost var m, now := 0, CurrentSlot(tcp);
      cnt, ok, m := DrainSlot(tcp, thresh, cnt, was, hit);
      assert hit + now[..m] == if first then slot[..m] else hit;
      if first {
        n := m;
      }
      hit := slot[..n];
      if !ok {
        return;
      }
      if cnt < thresh {
        break;
      }
      TickBringsNearer(curTs, tcp.rtoNowTs);
      NextRound(tcp, was, hit);
      first := false;
    }
  }

  lemma ClosedByScan(tcp: Manager, was: map<Stream, Conn>, hit: seq<Stream>, but: set<Stream>)
    requires Scanned(tcp, was, hit, but) && forall s :: s in but ==> s !in hit
    ensures forall s :: s in was ==> MayClose(was[s].view, Look(s))
    ensures forall s :: s in was ==>
      (s.state == CLOSED <==> was[s].view.state == CLOSED || (s in hit && UsedUp(was[s])))
  {
    hide ScannedOne, Whole, UsedUp, MayClose;
    forall s | s in was
      ensures MayClose(was[s].view, Look(s)) &&
        (s.state == CLOSED <==> was[s].view.state == CLOSED || (s in hit && UsedUp(was[s])))
    {
      Shows(s);
      ClosesOrNot(Look(s));
      if s !in but {
        ScanClosesIff(was[s], Whole(s), s in tcp.streams, s in hit);
      }
    }
  }

  lemma NoneAtAll(slot: seq<Stream>, n: int)
    requires n <= 0
    ensures NoneFails(slot, n)
  {}

  lemma NothingScanned(tcp: Manager)
    ensures Scanned(tcp, Wholes(tcp.streams), [], {})
  {}

  method NextRound(tcp: Manager, ghost was: map<Stream, Conn>, ghost hit: seq<Stream>)
    requires tcp.Valid() && Scanned(tcp, was, hit, {})
    modifies tcp`rtoNowIdx, tcp`rtoNowTs, tcp`rtoList, tcp`rtoListCnt, tcp.streams`onRtoIdx
    ensures tcp.Valid() && tcp.rtoNowTs == Wrap(old(tcp.rtoNowTs) + 1)
    ensures Scanned(tcp, was, hit, {})
  {
    hide Manager.Queues, Manager.Timers, ScannedOne, Whole;
    TurnWheel(tcp);
  }

  lemma TickBringsNearer(curTs: u32, now: u32)
    requires Signed(Wrap(curTs - now)) >= 0
    ensures Signed(Wrap(curTs - Wrap(now + 1))) == Signed(Wrap(curTs - now)) - 1
  {
    hide Wrap;
    WrapWrap(curTs, now + 1);
    WrapWrap(curTs - now, -1);
    Predecessor(Wrap(curTs - now));
  }

  lemma Predecessor(w: u32)
    ensures Wrap(w + -1) == if w > 0 then w - 1 else TWO32 - 1
  {}

  /** Lines 434-439. */
  method TurnWheel(tcp: Manager)
    requires tcp.Valid()
    modifies tcp`rtoNowIdx, tcp`rtoNowTs, tcp`rtoList, tcp`rtoListCnt, tcp.streams`onRtoIdx
    ensures tcp.Valid() && tcp.rtoNowTs == Wrap(old(tcp.rtoNowTs) + 1)
    ensures forall s :: s in tcp.streams ==> Whole(s) == old(Whole(s))
  {
    hide Manager.Queues, Manager.Timers, Whole;
    Tick(tcp);
    if tcp.rtoNowIdx % 1000 == 0 {
      RearrangeRtoStore(tcp);
    }
  }

  method Tick(tcp: Manager)
    requires tcp.Timers()
    modifies tcp`rtoNowIdx, tcp`rtoNowTs
    ensures tcp.Timers() && tcp.rtoNowTs == Wrap(old(tcp.rtoNowTs) + 1)
  {
    tcp.rtoNowIdx := (tcp.rtoNowIdx + 1) % RTO_HASH;
    tcp.rtoNowTs := Wrap(tcp.rtoNowTs + 1);
  }

  /** The slot of a stream after RearrangeRTOStore, computed in unsigned arithmetic. */
  function Rearranged(idx: int, ts: u32, nowTs: u32, nowIdx: nat): int {
    if idx == RTO_HASH && Signed(Wrap(nowTs - ts)) < RTO_HASH then Wrap(Signed(Wrap(nowTs - ts)) + nowIdx) % RTO_HASH
      else idx
  }

  /** RearrangeRTOStore: the streams of the overflow slot that have come near enough move to a
      slot of the wheel, which always exists. */
  method RearrangeRtoStore(tcp: Manager)
    requires tcp.Valid()
    modifies tcp`rtoList, tcp`rtoListCnt, tcp.streams`onRtoIdx
    ensures tcp.Valid() && tcp.rtoListCnt == old(tcp.rtoListCnt)
    ensures forall s :: s in tcp.streams ==>
      s.onRtoIdx == Rearranged(old(s.onRtoIdx), s.tsRto, tcp.rtoNowTs, tcp.rtoNowIdx)
    ensures forall s :: s in tcp.streams ==> Whole(s) == old(Whole(s))
  {
    hide Manager.Queues, Manager.Timers, Wrap, Signed, Whole;
    OverflowDistinct(tcp);
    var list := tcp.rtoList[RTO_HASH];
    var i := 0;
    while i < |list|
      invariant 0 <= i <= |list| && tcp.Valid() && |tcp.rtoList| == RTO_HASH + 1 &&
        tcp.rtoListCnt == old(tcp.rtoListCnt)
      invariant forall s :: s in tcp.streams ==>
        s.onRtoIdx == if s in list[..i] then Rearranged(old(s.onRtoIdx), s.tsRto, tcp.rtoNowTs, tcp.rtoNowIdx)
          else old(s.onRtoIdx)
      invariant forall s :: s in list[i..] ==> s in tcp.rtoList[RTO_HASH]
      invariant forall s :: s in tcp.streams ==> Whole(s) == old(Whole(s))
    {
      var walk := list[i];
      assert walk in list[i..] && list[i..] == [walk] + list[i + 1..];
      assert walk !in list[i + 1..] && walk !in list[..i] && list[..i + 1] == list[..i] + [walk];
      InOverflow(tcp, walk);
      var diff := Signed(Wrap(tcp.rtoNowTs - walk.tsRto));
      if diff < RTO_HASH {
        var offset := Wrap(diff + tcp.rtoNowIdx) % RTO_HASH;
        MoveTimer(tcp, walk, offset);
      }
      i := i + 1;
    }
  }

  lemma InOverflow(tcp: Manager, s: Stream)
    requires tcp.Timers() && |tcp.rtoList| == RTO_HASH + 1 && s in tcp.rtoList[RTO_HASH]
    ensures s in tcp.streams && s.onRtoIdx == RTO_HASH
    ensures forall x :: x in tcp.rtoList[RTO_HASH] && x != s ==> x in Without(tcp.rtoList[RTO_HASH], s)
  {
    WithoutKeeps(tcp.rtoList[RTO_HASH], s);
  }

  lemma OverflowDistinct(tcp: Manager)
    requires tcp.Timers()
    ensures |tcp.rtoList| == RTO_HASH + 1 && NoRepeats(tcp.rtoList[RTO_HASH])
    ensures forall s :: s in tcp.streams ==> (s in tcp.rtoList[RTO_HASH] <==> s.onRtoIdx == RTO_HASH)
  {}

  method MoveTimer(tcp: Manager, s: Stream, k: nat)
    requires tcp.Timers() && s in tcp.streams && s.onRtoIdx == RTO_HASH && k < RTO_HASH
    modifies tcp`rtoList, tcp`rtoListCnt, s`onRtoIdx
    ensures tcp.rtoListCnt == old(tcp.rtoListCnt)
    ensures tcp.Timers() && s.onRtoIdx == k && |old(tcp.rtoList)| == |tcp.rtoList| == RTO_HASH + 1
    ensures tcp.rtoList[RTO_HASH] == Without(old(tcp.rtoList)[RTO_HASH], s)
    ensures Whole(s) == old(Whole(s))
  {
    hide Manager.TimeoutOk, Manager.TimewaitOk, Look, NumbersOf, LinksOf, InboxOf, EndingOf, OwnerOf;
    tcp.RemoveFromRtoList(s);
    tcp.PutInSlot(s, k);
  }

  // ---- the other timers

  /** Its time in TIME_WAIT is over. */
  predicate Expired(curTs: u32, ts: u32) {
    Signed(Wrap(curTs - ts)) >= 0
  }

  /** ... and so the stream is closed and gone, unless it still has a control packet to send; any other
      stream is as it was. */
  predicate SweptOne(c: Conn, d: Conn, here: bool, hit: bool, curTs: u32) {
    && (hit ==> Expired(curTs, c.clock.expire))
    && if hit && !c.links.controlling then d == Off(Over(c, ACTIVE_CLOSE)) && !here else d == c && here
  }

  ghost predicate Swept(tcp: Manager, was: map<Stream, Conn>, hit: seq<Stream>, curTs: u32)
    reads tcp`streams, was.Keys
  {
    && tcp.streams <= was.Keys
    && forall s :: s in was ==> SweptOne(was[s], Whole(s), s in tcp.streams, s in hit, curTs)
  }

  /** Lines 460-473 for one stream whose time in TIME_WAIT is over: it is closed and destroyed,
      unless it still has a control packet to send. */
  method Expire(tcp: Manager, s: Stream, ghost curTs: u32)
    requires tcp.Valid() && s in tcp.streams && s.onTimewaitList && Expired(curTs, s.tsTwExpire)
    modifies tcp, s
    ensures old(tcp.rtoNowIdx) == 0 ==> tcp.rtoNowIdx == 0
    ensures tcp.log == old(tcp.log) && tcp.room == old(tcp.room)
    ensures tcp.Valid() && SweptOne(old(Whole(s)), Whole(s), s in tcp.streams, true, curTs)
    ensures if old(s.onControlList)
      then tcp.streams == old(tcp.streams) && tcp.timewaitList == old(tcp.timewaitList) && unchanged(s)
            else tcp.streams == old(tcp.streams) - {s} && tcp.timewaitList == Without(old(tcp.timewaitList), s)
  {
    hide Manager.Queues, Manager.Timers, Look, Whole, Without, Off, Over, Expired;
    ShowsLinks(s);
    ShowsClock(s);
    if !s.onControlList {
      CloseOrDrop(tcp, s, ACTIVE_CLOSE, false);
    }
  }

  method ExpireAt(tcp: Manager, list: seq<Stream>, i: nat, ghost curTs: u32, ghost kept: seq<Stream>,
    ghost was: map<Stream, Conn>) returns (ghost kept': seq<Stream>)
    requires tcp.Valid() && i < |list| && tcp.timewaitList == kept + list[i..] && NoRepeats(list) && list[i] in was
    requires Swept(tcp, was, list[..i], curTs) && Expired(curTs, list[i].tsTwExpire)
    modifies tcp, list[i]
    ensures old(tcp.rtoNowIdx) == 0 ==> tcp.rtoNowIdx == 0
    ensures tcp.log == old(tcp.log) && tcp.room == old(tcp.room)
    ensures tcp.Valid() && tcp.timewaitList == kept' + list[i + 1..] && Swept(tcp, was, list[..i + 1], curTs)
    ensures old(tcp.streams) - {list[i]} <= tcp.streams
  {
    hide Manager.Queues, Manager.Timers, Whole, Without, Off, Over, Expired;
    var s := list[i];
    TimewaitMember(tcp, kept, s, list[i + 1..], list[i..]);
    NotYet(list, i);
    OneFurther(list, i);
    ShowsLinks(s);
    kept' := if s.onControlList then kept + [s] else kept;
    Expire(tcp, s, curTs);
  }

  /** CheckTimewaitExpire: the streams from the front, as many as the threshold allows, are swept up to the
      first whose time is not over, and nothing happens to any other stream. */
  method CheckTimewaitExpire(tcp: Manager, curTs: u32, thresh: int) returns (ghost k: nat)
    requires tcp.Valid()
    modifies tcp, tcp.streams
    ensures old(tcp.rtoNowIdx) == 0 ==> tcp.rtoNowIdx == 0
    ensures tcp.log == old(tcp.log) && tcp.room == old(tcp.room)
    ensures tcp.Valid() && k <= Clamp(thresh, |old(tcp.timewaitList)|)
    ensures k == Clamp(thresh, |old(tcp.timewaitList)|) || !Expired(curTs, old(tcp.timewaitList[k].tsTwExpire))
    ensures Swept(tcp, old(Wholes(tcp.streams)), old(tcp.timewaitList)[..k], curTs)
    ensures Elsewhere(tcp, old(tcp.streams), old(tcp.timewaitList)[..k])
  {
    hide Manager.Queues, Manager.Timers, Swept, Expired, Whole;
    var list := tcp.timewaitList;
    ghost var kept, all, was := [], tcp.streams, Wholes(tcp.streams);
    WaitersAdmitted(tcp);
    NothingSwept(tcp, list[..0], curTs);
    var i, cnt := 0, 0;
    while i < |list|
      invariant old(tcp.rtoNowIdx) == 0 ==> tcp.rtoNowIdx == 0
      invariant tcp.log == old(tcp.log) && tcp.room == old(tcp.room)
      invariant 0 <= i <= |list| && cnt == i && (i > 0 ==> i <= thresh) && tcp.Valid()
      invariant tcp.timewaitList == kept + list[i..] && Swept(tcp, was, list[..i], curTs)
      invariant Elsewhere(tcp, all, list[..i])
      decreases |list| - i
    {
      cnt := cnt + 1;
      if cnt > thresh {
        break;
      }
      NotYet(list, i);
      if !Expired(curTs, list[i].tsTwExpire) {
        break;
      }
      SweptAdmitted(tcp, was, list[..i], curTs);
      kept := ExpireAt(tcp, list, i, curTs, kept, was);
      OneFurther(list, i);
      i := i + 1;
    }
    k := i;
  }

  lemma NothingSwept(tcp: Manager, none: seq<Stream>, curTs: u32)
    requires none == []
    ensures Swept(tcp, Wholes(tcp.streams), none, curTs)
  {}

  lemma SweptAdmitted(tcp: Manager, was: map<Stream, Conn>, hit: seq<Stream>, curTs: u32)
    requires Swept(tcp, was, hit, curTs)
    ensures tcp.streams <= was.Keys
  {}

  lemma WaitersAdmitted(tcp: Manager)
    requires tcp.Timers()
    ensures NoRepeats(tcp.timewaitList) && forall s :: s in tcp.timewaitList ==> s in tcp.streams
  {}

  lemma TimewaitMember(tcp: Manager, kept: seq<Stream>, s: Stream, rest: seq<Stream>, tail: seq<Stream>)
    requires tcp.Timers() && tail == [s] + rest && tcp.timewaitList == kept + tail
    ensures s in tcp.streams && s.onTimewaitList && Without(tcp.timewaitList, s) == kept + rest
    ensures tcp.timewaitList == kept + [s] + rest
  {
    var list := tcp.timewaitList;
    assert list[|kept|] == s;
    assert s in list;
    forall k | 0 <= k < |kept|
      ensures kept[k] != s
    {
      assert list[k] == kept[k];
    }
    assert list == kept + [s] + rest;
    WithoutMiddle(kept, s, rest);
  }

  /** CheckConnectionTimeout for one stream that has been idle too long. */
  method TimeOut(tcp: Manager, s: Stream)
    requires tcp.Valid() && s in tcp.streams && s.onTimeoutList
    modifies tcp`controlList, tcp`controlListCnt, tcp`sendList, tcp`sendListCnt, tcp`ackList, tcp`ackListCnt
    modifies tcp`rtoList, tcp`rtoListCnt, tcp`timewaitList, tcp`timewaitListCnt, tcp`timeoutList
    modifies tcp`timeoutListCnt, tcp`streams
    modifies s`onControlList, s`onSendList, s`onAckList, s`onRtoIdx, s`onTimewaitList, s`onTimeoutList
    modifies s`state, s`closeReason
    ensures tcp.Valid() && Whole(s) == Idled(old(Whole(s)))
    ensures tcp.streams == if s.hasSocketMap then old(tcp.streams) else old(tcp.streams) - {s}
    ensures tcp.timeoutList == Without(old(tcp.timeoutList), s)
    // the retransmission timer of a stream that a socket refers to runs on
    ensures s.hasSocketMap ==> tcp.rtoList == old(tcp.rtoList) && tcp.rtoListCnt == old(tcp.rtoListCnt)
  {
    hide Manager.Queues, Manager.Timers, Look, Whole, Over, Off, Unwatched, Without;
    ShowsOwner(s);
    UnwatchedKeeps(Whole(s));
    LeaveTimeouts(tcp, s);
    CloseOrDrop(tcp, s, TIMEDOUT, s.hasSocketMap);
  }

  function Unwatched(c: Conn): Conn {
    c.(clock := c.clock.(watched := false))
  }

  /** A stream that has been idle too long. */
  function Idled(c: Conn): Conn {
    var d := Over(Unwatched(c), TIMEDOUT);
    if c.owner.socketMap then d else Off(d)
  }

  lemma UnwatchedKeeps(c: Conn)
    ensures Unwatched(c).owner == c.owner
  {}

  method LeaveTimeouts(tcp: Manager, s: Stream)
    requires tcp.Timers() && s in tcp.streams && s.onTimeoutList
    modifies tcp`timeoutList, tcp`timeoutListCnt, s`onTimeoutList
    ensures tcp.Timers() && !s.onTimeoutList && tcp.timeoutList == Without(old(tcp.timeoutList), s)
    ensures Whole(s) == Unwatched(old(Whole(s)))
  {
    hide Manager.RtoOk, Manager.TimeoutOk, Manager.TimewaitOk, Look, NumbersOf, LinksOf, InboxOf, EndingOf, OwnerOf;
    tcp.RemoveFromTimeoutList(s);
  }

  /** A stream that was idle too long is closed, and gone unless a socket refers to it; any other stream is
      as it was. */
  predicate IdledOne(c: Conn, d: Conn, here: bool, hit: bool, curTs: u32) {
    if hit then IsIdle(curTs, c.clock.active) && d == Idled(c) && here == c.owner.socketMap else d == c && here
  }

  ghost predicate IdledOnes(tcp: Manager, was: map<Stream, Conn>, hit: seq<Stream>, curTs: u32)
    reads tcp`streams, was.Keys
  {
    tcp.streams <= was.Keys && forall s :: s in was ==> IdledOne(was[s], Whole(s), s in tcp.streams, s in hit, curTs)
  }

  /** Nothing has come or gone for too long. */
  predicate IsIdle(curTs: u32, active: u32) {
    Signed(Wrap(curTs - active)) >= TIMEOUT_MS
  }

  /** CheckConnectionTimeout: the streams from the front, as many as the threshold allows, are closed up to the
      first that was active recently, and nothing happens to any other stream. */
  method CheckConnectionTimeout(tcp: Manager, curTs: u32, thresh: int) returns (ghost k: nat)
    requires tcp.Valid()
    modifies tcp, tcp.streams
    ensures old(tcp.rtoNowIdx) == 0 ==> tcp.rtoNowIdx == 0
    ensures tcp.log == old(tcp.log) && tcp.room == old(tcp.room)
    ensures tcp.Valid() && k <= Clamp(thresh, |old(tcp.timeoutList)|) &&
      tcp.timeoutList == old(tcp.timeoutList)[k..]
    ensures k == Clamp(thresh, |old(tcp.timeoutList)|) || !IsIdle(curTs, old(tcp.timeoutList[k].lastActiveTs))
    ensures IdledOnes(tcp, old(Wholes(tcp.streams)), old(tcp.timeoutList)[..k], curTs)
    ensures Elsewhere(tcp, old(tcp.streams), old(tcp.timeoutList)[..k])
  {
    hide Manager.Queues, Manager.Timers, IdledOnes, IsIdle, Whole;
    ghost var list, all, was := tcp.timeoutList, tcp.streams, Wholes(tcp.streams);
    WatchedAdmitted(tcp);
    NobodyIdled(tcp, list[..0], curTs);
    k := 0;
    var cnt := 0;
    while tcp.timeoutList != []
      invariant old(tcp.rtoNowIdx) == 0 ==> tcp.rtoNowIdx == 0
      invariant tcp.log == old(tcp.log) && tcp.room == old(tcp.room)
      invariant 0 <= k <= |list| && cnt == k && (k > 0 ==> k <= thresh) && tcp.Valid()
      invariant tcp.timeoutList == list[k..] && IdledOnes(tcp, was, list[..k], curTs)
      invariant Elsewhere(tcp, all, list[..k])
      decreases |list| - k
    {
      cnt := cnt + 1;
      if cnt > thresh {
        break;
      }
      var walk := tcp.timeoutList[0];
      NotYet(list, k);
      if !IsIdle(curTs, walk.lastActiveTs) {
        break;
      }
      TimeOutNext(tcp, walk, curTs, list, k, was);
      OneFurther(list, k);
      k := k + 1;
    }
  }

  lemma NobodyIdled(tcp: Manager, none: seq<Stream>, curTs: u32)
    requires none == []
    ensures IdledOnes(tcp, Wholes(tcp.streams), none, curTs)
  {}

  /** One more stream. */
  method TimeOutNext(tcp: Manager, s: Stream, ghost curTs: u32, ghost list: seq<Stream>, ghost k: nat,
    ghost was: map<Stream, Conn>)
    requires tcp.Valid() && k < |list| && s == list[k] && NoRepeats(list) && tcp.timeoutList == list[k..]
    requires IdledOnes(tcp, was, list[..k], curTs) && IsIdle(curTs, s.lastActiveTs)
    modifies tcp, s
    ensures tcp.log == old(tcp.log) && tcp.room == old(tcp.room) && tcp.rtoNowIdx == old(tcp.rtoNowIdx)
    ensures tcp.Valid() && tcp.timeoutList == list[k + 1..] && IdledOnes(tcp, was, list[..k + 1], curTs)
    ensures old(tcp.streams) - {s} <= tcp.streams
  {
    hide Manager.Queues, Manager.Timers, Whole, Idled, IsIdle;
    FirstTimeout(tcp);
    ShowsClock(s);
    NotYet(list, k);
    OneFurther(list, k);
    ShowsOwner(s);
    TimeOut(tcp, s);
  }

  lemma WatchedAdmitted(tcp: Manager)
    requires tcp.Timers()
    ensures NoRepeats(tcp.timeoutList) && forall s :: s in tcp.timeoutList ==> s in tcp.streams
  {}

  lemma FirstTimeout(tcp: Manager)
    requires tcp.Timers() && tcp.timeoutList != []
    ensures var s := tcp.timeoutList[0];
      s in tcp.streams && s.onTimeoutList && Without(tcp.timeoutList, s) == tcp.timeoutList[1..]
  {
    assert tcp.timeoutList[0] in tcp.timeoutList;
  }
}
