/** The sending half of a connection: writes by the application, the flush loop, and the
    processing of acknowledgements, over the send buffer. Stream positions count the bytes
    written; position `p` has the sequence number `iss + 1 + p`. */
module Senders {
  import opened Common
  import opened SeqArith
  import opened SendBuffers
  import opened Segments
  import opened TcpState

  /** The length of the timestamp option that every data segment carries. */
  const OPTLEN := 12
  const MAX_RTX := 16

  function U16(x: int): nat { x % 0x1_0000 }

  function ToInt16(x: nat): int {
    if U16(x) < 0x8000 then U16(x) else U16(x) - 0x1_0000
  }

  /** The states in which the acknowledgement of a FIN is looked for (lines 1621-1625). */
  predicate ClosingState(s: State) {
    s == FIN_WAIT_1 || s == FIN_WAIT_2 || s == CLOSING || s == CLOSE_WAIT || s == LAST_ACK
  }

  /** The test of line 1670: the second number of the last window update plus the window has
      not moved past the first number plus the window before. */
  predicate SameEdge(wl2: u32, peerWnd: u32, oldWl1: u32, oldPeerWnd: u32) {
    Wrap(wl2 + peerWnd) == Wrap(oldPeerWnd + oldWl1)
  }

  /** With an unchanged window, as user_tcp_process leaves it (lines 1882-1889), the test is met
      only if the peer's last sequence number equals our last acknowledged one. */
  lemma SameEdgeNeedsEqualNumbers(wl2: u32, wl1: u32, peerWnd: u32)
    ensures SameEdge(wl2, peerWnd, wl1, peerWnd) <==> wl2 == wl1
  {}

  /** Half of what may be in flight, but no less than two segments. */
  function HalfWindow(cwnd: int, peerWnd: int, mss: int): int {
    if Min(cwnd, peerWnd) / 2 < 2 * mss then 2 * mss else Min(cwnd, peerWnd) / 2
  }

  /** It is the largest number whose double does not exceed the window, unless that is below the floor
      of two segments (section 3.1 of RFC 5681). */
  lemma HalfWindowIsHalf(cwnd: nat, peerWnd: nat, mss: nat, h: nat)
    ensures var w := Min(cwnd, peerWnd);
      HalfWindow(cwnd, peerWnd, mss) == h <==>
        if w >= 4 * mss then 2 * h <= w < 2 * (h + 1) else h == 2 * mss
  {
    if Min(cwnd, peerWnd) >= 4 * mss {
      assert Min(cwnd, peerWnd) / 2 >= 2 * mss;
    }
  }

  /** The congestion window after the loss signal `third`, or after one more duplicate if `more`
      (sections 3.1 and 3.2 of RFC 5681; a sum that does not fit into 32 bits is not taken). */
  function Reacted(cwnd: u32, ssthresh: int, mss: nat, third: bool, more: bool): u32 {
    if third then Wrap(ssthresh + 3 * mss) else if more && cwnd + mss < TWO32 then Wrap(cwnd + mss) else cwnd
  }

  /** How many full segments' worth of bytes that is. */
  function FullSegments(bytes: nat, effMss: nat): nat
    requires 0 < effMss
  {
    bytes / effMss
  }

  /** Slow start: while below the threshold the window grows by one segment for each full
      segment's worth of bytes that is newly acknowledged. */
  function Grown(cwnd: u32, ssthresh: int, mss: nat, segments: nat): u32 {
    if cwnd < ssthresh && 0 < mss && cwnd + mss < TWO32 then Wrap(cwnd + mss * segments) else cwnd
  }

  /** A window update is taken from a segment that is newer than the last one, or that opens the
      window further (section 3.10.7.4 of RFC 9293). */
  predicate Newer(seqNum: u32, ackSeq: u32, window: u32, wl1: u32, wl2: u32, peerWnd: u32) {
    SeqLt(wl1, seqNum) || (wl1 == seqNum && SeqLt(wl2, ackSeq)) || (wl2 == ackSeq && window > peerWnd)
  }

  class Sender {
    const iss: u32
    const size: nat
    var mss: nat
    var effMss: nat
    var wscalePeer: nat
    var sndUna: u32
    var sndNxt: u32
    var sndWnd: nat
    var peerWnd: u32
    var cwnd: u32
    var ssthresh: u32
    var fss: u32
    var isFinSent: bool
    var nrtx: nat
    var wl1: u32
    var wl2: u32
    var lastAckSeq: u32
    var dupAcks: nat
    var sndbuf: SendBuffer?

    /** The position that `sndNxt` stands for. */
    ghost var nxt: int

    function Num(pos: int): u32 {
      Wrap(iss + 1 + pos)
    }

    ghost predicate BufferValid()
      reads this`sndbuf, sndbuf, if sndbuf == null then {} else {sndbuf.data}
    {
      sndbuf != null && sndbuf.Valid() && sndbuf.Size() == size && sndbuf.initSeq == Num(0)
    }

    ghost predicate Valid()
      reads this`sndNxt, this`nxt, this`sndWnd, this`sndUna, this`isFinSent, this`sndbuf, sndbuf
      reads if sndbuf == null then {} else {sndbuf.data}
    {
      && size < 0x8000
      && sndNxt == Num(nxt)
      && if sndbuf == null then sndWnd == size && sndUna == Num(0)
         else BufferValid() && sndWnd == size - sndbuf.len && (sndUna == sndbuf.headSeq || FinDone())
    }

    /** Our FIN is acknowledged: `snd_una` is the number behind it, one behind the last byte. */
    ghost predicate FinDone()
      reads this`sndUna, this`isFinSent, this`sndbuf, sndbuf
    {
      sndbuf != null && isFinSent && sndbuf.len == 0 && sndUna == Num(|sndbuf.stream| + 1)
    }

    /** Everything the application has handed over, and how much of it is acknowledged. */
    ghost function Written(): seq<byte>
      reads this`sndbuf, sndbuf
    {
      if sndbuf == null then [] else sndbuf.stream
    }

    ghost function Una(): nat
      reads this`sndbuf, sndbuf
    {
      if sndbuf == null then 0 else sndbuf.removed
    }

    /** What the flush loop relies on: `snd_una <= snd_nxt <= head_seq + len`. */
    ghost predicate InOrder()
      reads this`nxt, this`sndbuf, sndbuf
    {
      Una() <= nxt <= |Written()|
    }

    constructor (iss: u32, size: nat, mss: nat)
      requires size < 0x8000 && mss < 0x1_0000
      ensures Valid() && InOrder() && Written() == [] && sndbuf == null
      ensures this.iss == iss && this.size == size && this.mss == effMss == mss && dupAcks == nrtx == 0 && nxt == 0
      ensures cwnd == 1 && ssthresh == 0 && wl1 == MAXSEQ && wscalePeer == 0 && !isFinSent
    {
      this.iss, this.size, this.mss := iss, size, mss;
      effMss, wscalePeer, peerWnd, ssthresh, cwnd := mss, 0, 0, 0, 1;
      sndUna, sndNxt, sndWnd := Wrap(iss + 1), Wrap(iss + 1), size;
      fss, isFinSent, nrtx, wl1, wl2, lastAckSeq, dupAcks := 0, false, 0, MAXSEQ, 0, 0, 0;
      sndbuf, nxt := null, 0;
    }

    /** The head of the send buffer carries the number of the first unacknowledged position. */
    lemma HeadNumber()
      requires BufferValid()
      ensures sndbuf.headSeq == Num(sndbuf.removed)
    {
      Onward(iss + 1, 0, sndbuf.removed);
    }

    lemma EndNumber()
      requires BufferValid()
      ensures Wrap(sndbuf.headSeq + sndbuf.len) == Num(|sndbuf.stream|)
    {
      HeadNumber();
      Onward(iss + 1, sndbuf.removed, sndbuf.len);
    }

    /** The position of `snd_una`. */
    lemma UnaNumber()
      requires Valid()
      ensures sndUna == Num(Una() + if FinDone() then 1 else 0) && Una() <= |Written()|
    {
      if sndbuf != null {
        HeadNumber();
      }
    }

    lemma NextNumber()
      requires Valid()
      ensures sndNxt == Num(nxt)
    {}

    lemma LenIsRest()
      requires Valid() && sndbuf != null
      ensures sndbuf.len == |Written()| - Una()
    {}

    // ---- user_copy_from_user

    /** As much of the data as the advertised free space takes; -1 if there is none. The callers write
        in ESTABLISHED and CLOSE_WAIT only (lines 626-627 of src/user_api.c). */
    method UserCopyFromUser(bytes: seq<byte>) returns (r: int)
      requires Valid() && !FinDone()
      modifies this`sndbuf, this`sndWnd, sndbuf, if sndbuf == null then {} else {sndbuf.data}
      ensures Valid() && Una() == old(Una())
      ensures r == if bytes == [] || old(sndWnd) == 0 then -1 else Min(old(sndWnd), |bytes|)
      ensures Written() == if r > 0 then old(Written()) + bytes[..r] else old(Written())
      ensures sndbuf == old(sndbuf) || (fresh(sndbuf) && fresh(sndbuf.data))
    {
      var sndlen := Min(sndWnd, |bytes|);
      if sndlen <= 0 {
        return -1;
      }
      if sndbuf == null {
        sndbuf := new SendBuffer(size, Num(0));
      }
      var ret := sndbuf.SBPut(bytes[..sndlen]);
      assert ret == sndlen;
      assert bytes[..sndlen][..sndlen] == bytes[..sndlen];
      sndWnd := sndbuf.Size() - sndbuf.len;
      return ret;
    }

    // ---- user_tcp_flush_sendbuffer

    ghost function FlushJob(): Job
      requires mss < 0x1_0000
      reads this`mss, this`cwnd, this`peerWnd, this`sndbuf, sndbuf
    {
      Job(Written(), iss + 1, Una(), Wrap(mss - OPTLEN), mss + OPTLEN, Min(cwnd, peerWnd))
    }

    /** `room` is the number of packets that the device still accepts. The result `ok` is false
        if one of the assertions of the source fails: there is no send buffer, or `snd_nxt` lies
        before its first byte. */
    method FlushSendbuffer(room: nat) returns (packets: int, segs: seq<Segment>, ok: bool)
      requires Valid() && mss < 0x1_0000
      requires Una() - nxt < HALF && nxt <= |Written()|
      modifies this`sndNxt, this`nxt
      ensures Valid()
      ensures ok <==> sndbuf != null && (sndbuf.len == 0 || old(InOrder()))
      ensures ok && sndbuf.len > 0 ==> InOrder() && Flushed(FlushJob(), old(nxt), segs, nxt, packets, room)
      ensures !ok || sndbuf.len == 0 ==> packets == 0 && segs == []
      ensures segs == [] ==> nxt == old(nxt)
    {
      if sndbuf == null {
        return 0, [], false;
      }
      if sndbuf.len == 0 {
        return 0, [], true;
      }
      packets, segs, ok := FlushLoop(Min(cwnd, peerWnd), Wrap(mss - OPTLEN), room, FlushJob());
    }

    method FlushLoop(window0: int, maxlen: int, room: nat, ghost j: Job)
      returns (packets: int, segs: seq<Segment>, ok: bool)
      requires BufferValid() && size < 0x8000 && sndNxt == Num(nxt) && sndUna == sndbuf.headSeq
      requires Una() - nxt < HALF && nxt <= |Written()|
      requires mss < 0x1_0000 && j == FlushJob() && window0 == j.window && maxlen == j.maxlen
      modifies this`sndNxt, this`nxt
      ensures sndNxt == Num(nxt) && (ok <==> old(InOrder())) && (ok ==> InOrder())
      ensures ok ==> Flushed(j, old(nxt), segs, nxt, packets, room)
      ensures !ok ==> packets == 0 && segs == [] && nxt == old(nxt)
    {
      packets, segs, ok := 0, [], true;
      var window, more := window0, true;
      ghost var from := nxt;
      while more
        invariant sndNxt == Num(nxt) && Una() - nxt < HALF && nxt <= |Written()|
        invariant segs == [] ==> nxt == from && window == window0
        invariant segs != [] || !more ==> ok == old(InOrder()) && (ok ==> InOrder())
        invariant more ==> ok && packets == |segs| <= room
        invariant InOrder() ==> Sent(j, from, segs, nxt, window)
        invariant !more && ok ==> Flushed(j, from, segs, nxt, packets, room)
        invariant !ok ==> packets == 0 && segs == [] && nxt == from
        decreases more, |Written()| - nxt
      {
        more, ok, packets, segs, window := FlushOne(window, maxlen, packets, segs, room, from, j);
      }
    }

    /** The body of the loop. */
    method FlushOne(window0: int, maxlen: int, packets0: int, segs0: seq<Segment>, room: nat, ghost from: int,
        ghost j: Job)
      returns (more: bool, ok: bool, packets: int, segs: seq<Segment>, window: int)
      requires BufferValid() && size < 0x8000 && sndNxt == Num(nxt) && sndUna == sndbuf.headSeq
      requires Una() - nxt < HALF && nxt <= |Written()|
      requires mss < 0x1_0000 && j == FlushJob() && maxlen == j.maxlen
      requires InOrder() ==> Sent(j, from, segs0, nxt, window0)
      requires packets0 == |segs0| <= room
      modifies this`sndNxt, this`nxt
      ensures sndNxt == Num(nxt) && (ok <==> old(InOrder())) && (ok ==> InOrder())
      ensures more ==> ok && packets == |segs| <= room && nxt > old(nxt)
      ensures ok ==> Sent(j, from, segs, nxt, window)
      ensures ok && !more ==> Flushed(j, from, segs, nxt, packets, room)
      ensures !more ==> nxt == old(nxt) && segs == segs0 && window == window0
      ensures !ok ==> !more && packets == packets0
    {
      HeadNumber();
      OrderAgrees(iss + 1 + nxt, iss + 1 + sndbuf.removed);
      if SeqLt(sndNxt, sndbuf.headSeq) {
        return false, false, packets0, segs0, window0;
      }
      ok := true;
      more, packets, segs, window := SendNext(window0, maxlen, packets0, segs0, room, from, j);
    }

    /** ... behind its first test. */
    method SendNext(window0: int, maxlen: int, packets0: int, segs0: seq<Segment>, room: nat, ghost from: int,
        ghost j: Job)
      returns (more: bool, packets: int, segs: seq<Segment>, window: int)
      requires BufferValid() && size < 0x8000 && sndNxt == Num(nxt) && sndUna == sndbuf.headSeq && InOrder()
      requires mss < 0x1_0000 && j == FlushJob() && maxlen == j.maxlen
      requires Sent(j, from, segs0, nxt, window0) && packets0 == |segs0| <= room
      modifies this`sndNxt, this`nxt
      ensures sndNxt == Num(nxt) && InOrder() && Sent(j, from, segs, nxt, window)
      ensures more ==> packets == |segs| <= room && nxt > old(nxt)
      ensures !more ==>
        nxt == old(nxt) && segs == segs0 && window == window0 && Flushed(j, from, segs, nxt, packets, room)
    {
      hide Wrap, Holds, Covers, Flushed, Fits;
      var n := Choose(sndNxt, maxlen, window0);
      var code, seg := packets0, Segment(0, []);
      ghost var p := nxt;
      if n > 0 {
        code, seg := Emit(n, window0, room - |segs0|);
      }
      if n <= 0 || code < 0 {
        Stopped(j, from, segs0, p, window0, n, code, room);
        return false, code, segs0, window0;
      }
      SentOneMore(j, from, segs0, p, window0, n, seg);
      return true, packets0 + 1, segs0 + [seg], window0 - n;
    }

    /** Lines 2499-2521: the segment is sent if the window and the device allow it. */
    method Emit(n: nat, window: int, room: nat) returns (r: int, seg: Segment)
      requires BufferValid() && size < 0x8000 && sndNxt == Num(nxt) && sndUna == sndbuf.headSeq
      requires InOrder() && 0 < n && nxt + n <= |Written()|
      modifies this`sndNxt, this`nxt
      ensures r == if old(nxt) - Una() + n > window then -3 else if n > mss + OPTLEN then -1 else if room == 0 then -2
        else n
      ensures r > 0 ==> seg == Segment(Num(old(nxt)), Written()[old(nxt)..old(nxt) + n])
      ensures nxt == old(nxt) + (if r > 0 then n else 0) && sndNxt == Num(nxt) && InOrder()
    {
      var ahead := Ahead(n);
      if ahead > window {
        return -3, Segment(0, []);
      }
      r, seg := SendTcppkt(n, room);
    }

    /** The left side of the test of line 2499. */
    method Ahead(n: nat) returns (ahead: int)
      requires BufferValid() && size < 0x8000 && sndNxt == Num(nxt) && sndUna == sndbuf.headSeq
      requires InOrder() && nxt + n <= |Written()|
      ensures ahead == nxt - Una() + n
    {
      hide Wrap;
      HeadNumber();
      OffsetOf(iss + 1, Una(), nxt);
      WrapSmall(nxt - Una() + n);
      ahead := Wrap(Wrap(sndNxt - sndUna) + n);
    }

    /** Lines 2467-2489: the length of the next segment. */
    method Choose(seqNum: u32, maxlen: int, window: int) returns (n: nat)
      requires BufferValid() && size < 0x8000 && Una() <= nxt <= |Written()| && seqNum == Num(nxt)
      requires 0 <= maxlen && 0 <= window
      ensures n == NextLen(|Written()| - nxt, maxlen, window)
    {
      EndNumber();
      OffsetOf(iss + 1, nxt, |sndbuf.stream|);
      var buffered: int := Wrap(Wrap(sndbuf.headSeq + sndbuf.len) - seqNum);
      n := Shortest(buffered, maxlen, window);
    }

    /** What `buffered_len` is worth (line 2470): the number of bytes not sent yet exactly as long as
        `snd_nxt` is not behind the last byte; one behind it, as after a FIN, it is 2^32 - 1. */
    lemma BufferedIff(pos: int)
      requires BufferValid() && -TWO32 < |Written()| - pos < TWO32
      ensures var buffered := Wrap(Wrap(sndbuf.headSeq + sndbuf.len) - Num(pos));
        buffered == (if pos <= |Written()| then |Written()| - pos else TWO32 + |Written()| - pos)
    {
      hide Wrap, SendBuffer.Valid;
      EndNumber();
      WrapWrap(iss + 1 + |sndbuf.stream|, iss + 1 + pos);
      Normalize(iss + 1 + |sndbuf.stream|, iss + 1 + pos);
    }

    /** user_tcp_send_tcppkt for a data segment of `n` bytes; the result is narrowed to 16 bits
        by the caller's variable. */
    method SendTcppkt(n: nat, room: nat) returns (r: int, seg: Segment)
      requires BufferValid() && size < 0x8000 && Una() <= nxt && 0 < n && nxt + n <= |Written()| && sndNxt == Num(nxt)
      modifies this`sndNxt, this`nxt
      ensures seg == Segment(Num(old(nxt)), Written()[old(nxt)..old(nxt) + n]) && sndNxt == Num(nxt)
      ensures r == if n > mss + OPTLEN then -1 else if room == 0 then -2 else n
      ensures nxt == old(nxt) + if r > 0 then n else 0
    {
      hide Wrap, Holds;
      var payload := PayloadAt(n);
      seg := Segment(sndNxt, payload);
      if n > mss + OPTLEN {
        return -1, seg;
      }
      if room == 0 {
        return -2, seg;
      }
      Onward(iss + 1, nxt, n);
      sndNxt := Wrap(sndNxt + n);
      nxt := nxt + n;
      r := ToInt16(n);
    }

    /** The `n` bytes of the send buffer from `snd_nxt` on (line 2476). */
    method PayloadAt(n: nat) returns (payload: seq<byte>)
      requires BufferValid() && Una() <= nxt && nxt + n <= |Written()| && sndNxt == Num(nxt)
      ensures payload == Written()[nxt..nxt + n] && n <= size
    {
      HeadNumber();
      OffsetOf(iss + 1, sndbuf.removed, nxt);
      var at := sndbuf.head + Wrap(sndNxt - sndbuf.headSeq);
      HoldsSlice(sndbuf.data[..], sndbuf.head, sndbuf.len, sndbuf.stream, sndbuf.removed, nxt, n);
      payload := sndbuf.data[..][at..at + n];
    }

    // ---- the beginning

    /** Lines 1024-1026: the handshake opens the congestion window. */
    method Establish()
      requires Valid() && mss < 0x1_0000
      modifies this`cwnd, this`nrtx
      ensures Valid() && cwnd == (if old(cwnd) == 1 then 2 * mss else mss) && nrtx == 0
    {
      cwnd := if cwnd == 1 then mss * 2 else mss;
      nrtx := 0;
    }

    /** Line 1094, in user_tcp_handle_established: a SYN takes its acknowledgement number over
        unchecked, and the order of `snd_una` and `snd_nxt` survives exactly if that number lies
        between what is acknowledged and what is written. */
    method TakeSyn(ackSeq: u32, ghost a: int)
      requires Valid() && ackSeq == Num(a)
      modifies this`sndNxt, this`nxt
      ensures Valid() && nxt == a && (InOrder() <==> Una() <= a <= |Written()|)
    {
      sndNxt, nxt := ackSeq, a;
    }

    // ---- user_tcp_process_ack

    /** The acknowledgement number without the one that a FIN takes (lines 1621-1629). */
    function EffectiveAck(state: State, ackSeq: u32): u32
      reads this`isFinSent, this`fss
    {
      if ClosingState(state) && isFinSent && ackSeq == Wrap(fss + 1) then Wrap(ackSeq - 1) else ackSeq
    }

    /** The window field in bytes (lines 1613-1618). */
    function Scaled(syn: bool, window: nat): u32
      reads this`wscalePeer
    {
      ScaledWindow(window, wscalePeer, syn)
    }

    /** Taken together with the window update, the segment leaves the peer's window edge in place,
        in the sense of the test of line 1670. */
    ghost predicate EdgeStays(seqNum: u32, ackSeq: u32, window: u32)
      reads this`wl1, this`wl2, this`peerWnd
    {
      if Newer(seqNum, ackSeq, window, wl1, wl2, peerWnd) then SameEdge(ackSeq, window, wl1, peerWnd)
      else SameEdge(wl2, peerWnd, wl1, peerWnd)
    }

    /** The segment, acknowledging everything before position `a`, is going to count as a duplicate. */
    ghost predicate Duplicates(seqNum: u32, ackSeq: u32, window: u32, payloadlen: nat, a: int)
      reads this`wl1, this`wl2, this`peerWnd, this`nxt, this`lastAckSeq
    {
      a < nxt && ackSeq == lastAckSeq && payloadlen == 0 && EdgeStays(seqNum, ackSeq, window)
    }

    /** ... as the third one, although its number is older than `snd_una`. */
    ghost predicate StaleThird(seqNum: u32, ackSeq: u32, window: u32, payloadlen: nat, a: int)
      reads this`wl1, this`wl2, this`peerWnd, this`nxt, this`lastAckSeq, this`dupAcks, this`sndbuf, sndbuf
    {
      Duplicates(seqNum, ackSeq, window, payloadlen, a) && dupAcks == 2 && a < Una()
    }

    /** The acknowledgement is close enough to everything it is compared with. */
    ghost predicate Acceptable(a: int)
      reads this`nxt, this`sndbuf, sndbuf
    {
      && sndbuf != null && -HALF < a - Una() && -HALF < a - |Written()| < HALF && -HALF < a - nxt < HALF
      && a - Una() < HALF
    }

    /** `a` is the position behind the last byte acknowledged, close enough for the comparisons
        of its number to be meaningful; `dup` tells whether the source counts a duplicate. */
    method ProcessAck(state: State, syn: bool, seqNum: u32, ackSeq0: u32, window: nat, payloadlen: nat, ghost a: int)
      returns (dup: bool)
      requires Valid() && Acceptable(a) && EffectiveAck(state, ackSeq0) == Num(a)
      requires 0 < effMss < 0x1_0000 && mss < 0x1_0000 && state.Code() >= ESTABLISHED.Code() && dupAcks < 256
      modifies this`sndUna, this`sndNxt, this`nxt, this`sndWnd, this`peerWnd, this`cwnd, this`ssthresh
      modifies this`nrtx, this`wl1, this`wl2, this`lastAckSeq, this`dupAcks, sndbuf
      ensures Valid() && Written() == old(Written()) && dupAcks < 256
      // what leaves the buffer: exactly the bytes below an acknowledgement that is new
      ensures Una() == if old(Una()) < a <= |Written()| then a else old(Una())
      // an acknowledgement of bytes never written is ignored
      ensures a > |Written()| ==>
        !dup && nxt == old(nxt) && peerWnd == old(peerWnd) && cwnd == old(cwnd) && dupAcks == old(dupAcks)
      ensures a > |Written()| ==> lastAckSeq == old(lastAckSeq) && wl1 == old(wl1) && wl2 == old(wl2)
      // duplicates and fast retransmission
      ensures dup <==>
        a <= |Written()| && old(Duplicates(seqNum, EffectiveAck(state, ackSeq0), Scaled(syn, window), payloadlen, a))
      ensures a <= |Written()| ==> dupAcks == if dup then (old(dupAcks) + 1) % 256 else 0
      ensures a <= |Written()| ==> lastAckSeq == EffectiveAck(state, ackSeq0)
      ensures a <= |Written()| ==> nxt == if (dup && dupAcks == 3) || a > old(nxt) then a else old(nxt)
      ensures ssthresh == if dup && dupAcks == 3 then HalfWindow(old(cwnd), peerWnd, mss) else old(ssthresh)
      ensures nrtx == if Una() > old(Una()) then 0
        else old(nrtx) + if dup && dupAcks == 3 && old(nrtx) < MAX_RTX then 1 else 0
      // congestion and peer window
      ensures a <= |Written()| ==>
        cwnd == Grown(Reacted(old(cwnd), ssthresh, mss, dup && dupAcks == 3, dupAcks > 3), ssthresh, mss,
          U16(FullSegments(Una() - old(Una()), effMss)))
      ensures a <= |Written()| && Newer(seqNum, EffectiveAck(state, ackSeq0), Scaled(syn, window), old(wl1), old(wl2),
        old(peerWnd)) ==>
        peerWnd == Scaled(syn, window) && wl1 == seqNum && wl2 == EffectiveAck(state, ackSeq0)
      ensures a <= |Written()| && !Newer(seqNum, EffectiveAck(state, ackSeq0), Scaled(syn, window), old(wl1),
        old(wl2), old(peerWnd)) ==>
        peerWnd == old(peerWnd) && wl1 == old(wl1) && wl2 == old(wl2)
      // so the flush loop's assumption survives unless the third duplicate is an old one
      ensures old(InOrder()) ==>
        (InOrder() <==> !old(StaleThird(seqNum, EffectiveAck(state, ackSeq0), Scaled(syn, window), payloadlen, a)))
    {
      hide Wrap, Holds, SameEdge, HalfWindow, SeqGt, SeqLt, EffectiveAck, Reacted, Grown, Scaled, Newer, Duplicates;
      hide EdgeStays, U16, BufferValid;
      var cwindow := Scaled(syn, window);
      var ackSeq := EffectiveAck(state, ackSeq0);
      EndNumber();
      OrderAgrees(iss + 1 + a, iss + 1 + |sndbuf.stream|);
      if SeqGt(ackSeq, Wrap(sndbuf.headSeq + sndbuf.len)) {
        return false;
      }
      dup := Consider(seqNum, ackSeq, cwindow, payloadlen, a);
      Release(state, ackSeq, a);
    }

    /** Lines 1248-1255, in user_tcp_handle_fin_wait_1: the acknowledgement of our FIN. */
    method AckFin(ackSeq: u32)
      requires Valid() && sndbuf != null && sndbuf.len == 0 && isFinSent && ackSeq == Num(|Written()| + 1)
      requires -HALF < nxt - (|Written()| + 1) < HALF
      modifies this`sndUna, this`sndNxt, this`nxt, this`nrtx
      ensures Valid() && FinDone() && nrtx == 0 && Una() == |Written()|
      ensures nxt == if old(nxt) <= |Written()| then |Written()| + 1 else old(nxt)
    {
      sndUna := ackSeq;
      OrderAgrees(iss + 1 + (|Written()| + 1), iss + 1 + nxt);
      if SeqGt(ackSeq, sndNxt) {
        sndNxt, nxt := ackSeq, |Written()| + 1;
      }
      nrtx := 0;
    }

    // ---- the peer's window

    /** Lines 1882-1889: user_tcp_process takes the window of every segment that it lets pass. */
    method TakeWindow(syn: bool, window: nat)
      modifies this`peerWnd
      ensures peerWnd == Scaled(syn, window)
    {
      peerWnd := Scaled(syn, window);
    }

    /** The window that section 3.10.7.4 of RFC 9293 prescribes after a segment: its own if it
        acknowledges something between `snd_una` and `snd_nxt` and is not older than the segment that
        the window was last taken from, the present one otherwise. */
    ghost function PrescribedWindow(seqNum: u32, ackSeq: u32, window: u32, a: int): u32
      reads this`wl1, this`wl2, this`peerWnd, this`nxt, this`sndbuf, sndbuf
    {
      if Una() <= a <= nxt && (SeqLt(wl1, seqNum) || (wl1 == seqNum && SeqLeq(wl2, ackSeq))) then window else peerWnd
    }

    /** The segment is older than the last window update, or acknowledges nothing that is under way. */
    ghost predicate Outdated(seqNum: u32, ackSeq: u32, a: int)
      reads this`wl1, this`wl2, this`nxt, this`sndbuf, sndbuf
    {
      a < Una() || nxt < a || SeqGt(wl1, seqNum) || (wl1 == seqNum && SeqGt(wl2, ackSeq))
    }

    /** An acknowledgement as user_tcp_process handles it: its window is taken first, whatever the
        segment, and then it is processed. So old segments set the window too, and it differs from
        what the standard prescribes exactly after an outdated segment with a different window. */
    method TakeSegment(state: State, syn: bool, seqNum: u32, ackSeq0: u32, window: nat, payloadlen: nat, ghost a: int)
      returns (dup: bool)
      requires Valid() && Acceptable(a) && EffectiveAck(state, ackSeq0) == Num(a)
      requires 0 < effMss < 0x1_0000 && mss < 0x1_0000 && state.Code() >= ESTABLISHED.Code() && dupAcks < 256
      modifies this`sndUna, this`sndNxt, this`nxt, this`sndWnd, this`peerWnd, this`cwnd, this`ssthresh
      modifies this`nrtx, this`wl1, this`wl2, this`lastAckSeq, this`dupAcks, sndbuf
      ensures Valid() && Written() == old(Written()) && dupAcks < 256
      ensures Una() == if old(Una()) < a <= |Written()| then a else old(Una())
      ensures peerWnd == Scaled(syn, window)
      ensures peerWnd != old(PrescribedWindow(seqNum, EffectiveAck(state, ackSeq0), Scaled(syn, window), a)) <==>
        old(Outdated(seqNum, EffectiveAck(state, ackSeq0), a)) && Scaled(syn, window) != old(peerWnd)
      ensures dup <==> a <= |Written()| && old(Repeats(seqNum, EffectiveAck(state, ackSeq0), payloadlen, a))
      ensures a > |Written()| ==>
        nxt == old(nxt) && cwnd == old(cwnd) && dupAcks == old(dupAcks) && lastAckSeq == old(lastAckSeq)
      ensures a <= |Written()| ==>
        dupAcks == (if dup then (old(dupAcks) + 1) % 256 else 0) && lastAckSeq == EffectiveAck(state, ackSeq0)
      ensures a <= |Written()| ==> nxt == if (dup && dupAcks == 3) || a > old(nxt) then a else old(nxt)
      ensures nrtx == if Una() > old(Una()) then 0
        else old(nrtx) + if dup && dupAcks == 3 && old(nrtx) < MAX_RTX then 1 else 0
      ensures if a <= |Written()| && old(Advances(seqNum, EffectiveAck(state, ackSeq0)))
              then wl1 == seqNum && wl2 == EffectiveAck(state, ackSeq0) else wl1 == old(wl1) && wl2 == old(wl2)
    {
      hide Wrap, Holds, HalfWindow, Reacted, Grown, Scaled, EffectiveAck, SeqLt, SeqLeq, SeqGt, Outdated;
      hide PrescribedWindow;
      hide Acceptable, Duplicates, Newer, EdgeStays, Repeats, Advances, StaleThird, U16, BufferValid, InOrder;
      PrescribedUnless(seqNum, EffectiveAck(state, ackSeq0), Scaled(syn, window), a);
      TakeWindow(syn, window);
      OwnWindow(seqNum, EffectiveAck(state, ackSeq0), payloadlen, a);
      dup := ProcessAck(state, syn, seqNum, ackSeq0, window, payloadlen, a);
    }

    /** The numbers of the segment are newer than those of the last window update. */
    ghost predicate Advances(seqNum: u32, ackSeq: u32)
      reads this`wl1, this`wl2
    {
      SeqLt(wl1, seqNum) || (wl1 == seqNum && SeqLt(wl2, ackSeq))
    }

    /** With the window taken already a duplicate needs a peer whose sequence number equals ours. */
    ghost predicate Repeats(seqNum: u32, ackSeq: u32, payloadlen: nat, a: int)
      reads this`wl1, this`wl2, this`nxt, this`lastAckSeq
    {
      a < nxt && ackSeq == lastAckSeq && payloadlen == 0 && wl1 == if Advances(seqNum, ackSeq) then ackSeq else wl2
    }

    lemma PrescribedUnless(seqNum: u32, ackSeq: u32, window: u32, a: int)
      ensures window != PrescribedWindow(seqNum, ackSeq, window, a) <==>
        Outdated(seqNum, ackSeq, a) && window != peerWnd
    {}

    lemma OwnWindow(seqNum: u32, ackSeq: u32, payloadlen: nat, a: int)
      ensures Duplicates(seqNum, ackSeq, peerWnd, payloadlen, a) <==> Repeats(seqNum, ackSeq, payloadlen, a)
      ensures Newer(seqNum, ackSeq, peerWnd, wl1, wl2, peerWnd) <==> Advances(seqNum, ackSeq)
    {}

    /** Lines 1640-1743: everything that an acknowledgement of written bytes does before bytes
        are removed. */
    method Consider(seqNum: u32, ackSeq: u32, cwindow: u32, payloadlen: nat, ghost a: int) returns (dup: bool)
      requires ackSeq == Num(a) && sndNxt == Num(nxt) && -HALF < a - nxt < HALF && mss < 0x1_0000 && dupAcks < 256
      modifies this`sndNxt, this`nxt, this`peerWnd, this`cwnd, this`ssthresh
      modifies this`nrtx, this`wl1, this`wl2, this`lastAckSeq, this`dupAcks
      ensures sndNxt == Num(nxt) && lastAckSeq == ackSeq && dupAcks == if dup then (old(dupAcks) + 1) % 256 else 0
      ensures dup <==> old(Duplicates(seqNum, ackSeq, cwindow, payloadlen, a))
      ensures nxt == if (dup && dupAcks == 3) || a > old(nxt) then a else old(nxt)
      ensures ssthresh == if dup && dupAcks == 3 then HalfWindow(old(cwnd), peerWnd, mss) else old(ssthresh)
      ensures nrtx == old(nrtx) + if dup && dupAcks == 3 && old(nrtx) < MAX_RTX then 1 else 0
      ensures cwnd == Reacted(old(cwnd), ssthresh, mss, dup && dupAcks == 3, dupAcks > 3)
      ensures if Newer(seqNum, ackSeq, cwindow, old(wl1), old(wl2), old(peerWnd))
              then peerWnd == cwindow && wl1 == seqNum && wl2 == ackSeq
              else peerWnd == old(peerWnd) && wl1 == old(wl1) && wl2 == old(wl2)
    {
      hide Newer, HalfWindow, Reacted, Wrap, SeqGt, SameEdge;
      var rightEdge := Wrap(peerWnd + wl1);
      UpdateWindow(seqNum, ackSeq, cwindow);
      dup := CountDuplicate(ackSeq, payloadlen, rightEdge, a, old(wl1), old(peerWnd));
      React(dup, ackSeq, a);
      OrderAgrees(iss + 1 + a, iss + 1 + nxt);
      if SeqGt(ackSeq, sndNxt) {
        sndNxt, nxt := ackSeq, a;
      }
    }

    /** Lines 1640-1663: the peer's window is taken over from a newer segment. */
    method UpdateWindow(seqNum: u32, ackSeq: u32, cwindow: u32)
      modifies this`peerWnd, this`wl1, this`wl2
      ensures if Newer(seqNum, ackSeq, cwindow, old(wl1), old(wl2), old(peerWnd))
              then peerWnd == cwindow && wl1 == seqNum && wl2 == ackSeq
              else peerWnd == old(peerWnd) && wl1 == old(wl1) && wl2 == old(wl2)
    {
      if SeqLt(wl1, seqNum) || (wl1 == seqNum && SeqLt(wl2, ackSeq)) || (wl2 == ackSeq && cwindow > peerWnd) {
        peerWnd, wl1, wl2 := cwindow, seqNum, ackSeq;
      }
    }

    /** Lines 1665-1685. The counter has eight bits. */
    method CountDuplicate(ackSeq: u32, payloadlen: nat, rightEdge: u32, ghost a: int, ghost wl10: u32,
        ghost peerWnd0: u32)
      returns (dup: bool)
      requires rightEdge == Wrap(peerWnd0 + wl10)
      requires ackSeq == Num(a) && sndNxt == Num(nxt) && -HALF < a - nxt < HALF && dupAcks < 256
      modifies this`dupAcks, this`lastAckSeq
      ensures dup <==> a < nxt && ackSeq == old(lastAckSeq) && payloadlen == 0 && SameEdge(wl2, peerWnd, wl10, peerWnd0)
      ensures dupAcks == (if dup then (old(dupAcks) + 1) % 256 else 0) && lastAckSeq == ackSeq
    {
      OrderAgrees(iss + 1 + a, iss + 1 + nxt);
      dup := false;
      if SeqLt(ackSeq, sndNxt) {
        if ackSeq == lastAckSeq && payloadlen == 0 {
          if Wrap(wl2 + peerWnd) == rightEdge {
            if dupAcks + 1 > dupAcks {
              dupAcks := (dupAcks + 1) % 256;
            }
            dup := true;
          }
        }
      }
      if !dup {
        dupAcks, lastAckSeq := 0, ackSeq;
      }
    }

    /** Lines 1687-1732: fast retransmission on the third duplicate (section 3.2 of RFC 5681),
        a larger congestion window on every further one. */
    method React(dup: bool, ackSeq: u32, ghost a: int)
      requires ackSeq == Num(a) && sndNxt == Num(nxt) && -HALF < a - nxt < HALF && (dup ==> a < nxt) &&
        0 <= mss < 0x1_0000
      modifies this`sndNxt, this`nxt, this`ssthresh, this`cwnd, this`nrtx
      ensures sndNxt == Num(nxt) && nxt == if dup && dupAcks == 3 then a else old(nxt)
      ensures ssthresh == if dup && dupAcks == 3 then HalfWindow(old(cwnd), peerWnd, mss) else old(ssthresh)
      ensures cwnd == Reacted(old(cwnd), ssthresh, mss, dup && dupAcks == 3, dupAcks > 3)
      ensures nrtx == old(nrtx) + if dup && dupAcks == 3 && old(nrtx) < MAX_RTX then 1 else 0
    {
      OrderAgrees(iss + 1 + a, iss + 1 + nxt);
      if dup && dupAcks == 3 {
        if SeqLt(ackSeq, sndNxt) {
          sndNxt, nxt := ackSeq, a;
        }
        ssthresh := Min(cwnd, peerWnd) / 2;
        if ssthresh < 2 * mss {
          ssthresh := 2 * mss;
        }
        cwnd := Wrap(ssthresh + 3 * mss);
        if nrtx < MAX_RTX {
          nrtx := nrtx + 1;
        }
      } else if dupAcks > 3 {
        if Wrap(cwnd + mss) > cwnd {
          cwnd := Wrap(cwnd + mss);
        }
      }
    }

    /** Lines 1745-1813: the acknowledged bytes leave the send buffer. */
    method Release(state: State, ackSeq: u32, ghost a: int)
      requires Valid() && BufferValid() && ackSeq == Num(a) && a <= |Written()| && -HALF < a - Una() < HALF
      requires 0 < effMss < 0x1_0000 && 0 <= mss < 0x1_0000 && state.Code() >= ESTABLISHED.Code()
      modifies this`sndUna, this`sndWnd, this`cwnd, this`nrtx, sndbuf
      ensures Valid() && Written() == old(Written())
      ensures Una() == if old(Una()) < a then a else old(Una())
      ensures nrtx == if Una() > old(Una()) then 0 else old(nrtx)
      ensures cwnd == Grown(old(cwnd), ssthresh, mss, U16(FullSegments(Una() - old(Una()), effMss)))
    {
      hide Wrap, Holds, SeqGeq, Grown, U16;
      NothingGrown(cwnd, ssthresh, mss, effMss);
      HeadNumber();
      OrderAgrees(iss + 1 + Una(), iss + 1 + a);
      if SeqGeq(sndbuf.headSeq, ackSeq) {
        return;
      }
      OffsetOf(iss + 1, Una(), a);
      var rmlen := Wrap(ackSeq - sndbuf.headSeq);
      if rmlen > 0 {
        GrowWindow(state, rmlen);
        RemoveAcked(ackSeq, rmlen);
      }
    }

    /** Lines 1798-1812; the timer is set anew and the retries start over (src/user_timer.c:150). */
    method RemoveAcked(ackSeq: u32, rmlen: nat)
      requires BufferValid() && 0 < rmlen <= sndbuf.len && ackSeq == Num(Una() + rmlen)
      modifies this`sndUna, this`sndWnd, this`nrtx, sndbuf
      ensures nrtx == 0 && BufferValid() && Written() == old(Written()) && Una() == old(Una()) + rmlen
      ensures sndUna == sndbuf.headSeq && sndWnd == sndbuf.Size() - sndbuf.len
    {
      var ret := sndbuf.SBRemove(rmlen);
      HeadNumber();
      if ret <= 0 {
        return;
      }
      sndUna := ackSeq;
      sndWnd := sndbuf.Size() - sndbuf.len;
      nrtx := 0;
    }

    /** Lines 1753-1788. The products are computed in 32 bits; the rounding up of line 1754 never
        applies, because the quotient is already rounded down. */
    method GrowWindow(state: State, rmlen: nat)
      requires 0 < effMss < 0x1_0000 && 0 <= mss < 0x1_0000 && (state.Code() < ESTABLISHED.Code() ==> 0 < cwnd)
      modifies this`cwnd
      ensures state.Code() >= ESTABLISHED.Code() ==>
        cwnd == Grown(old(cwnd), ssthresh, mss, U16(FullSegments(rmlen, effMss)))
      ensures state.Code() < ESTABLISHED.Code() ==> cwnd >= old(cwnd)
    {
      hide Wrap, U16;
      var packets := U16(FullSegments(rmlen, effMss));
      NoOverflow(cwnd, mss);
      if state.Code() >= ESTABLISHED.Code() {
        if cwnd < ssthresh {
          if Wrap(cwnd + mss) > cwnd {
            cwnd := Wrap(cwnd + mss * packets);
          }
        }
      } else {
        var newCwnd := Wrap(cwnd + Wrap(packets * mss * mss) / cwnd);
        if newCwnd > cwnd {
          cwnd := newCwnd;
        }
      }
    }

    // ---- HandleRTO

    /** Lines 184-211, 238-243 and 317 of src/user_timer.c: as long as retries are left a timeout starts
        over at `snd_una` with a congestion window of one segment (section 3.1 of RFC 5681); the result
        is false if the connection is given up instead. */
    method StartOver() returns (alive: bool)
      requires Valid() && mss < 0x1_0000
      modifies this`sndNxt, this`nxt, this`ssthresh, this`cwnd, this`nrtx
      ensures Valid() && (alive <==> old(nrtx) < MAX_RTX)
      ensures alive ==>
        nxt == Una() + (if FinDone() then 1 else 0) && (FinDone() || InOrder()) &&
        ssthresh == HalfWindow(old(cwnd), peerWnd, mss) && cwnd == mss && nrtx == old(nrtx) + 1
      ensures !alive ==> nxt == old(nxt) && ssthresh == old(ssthresh) && cwnd == old(cwnd) && nrtx == old(nrtx)
    {
      hide Wrap, SendBuffer.Valid;
      if nrtx >= MAX_RTX {
        return false;
      }
      UnaNumber();
      alive := true;
      nrtx := nrtx + 1;
      ssthresh := Min(cwnd, peerWnd) / 2;
      if ssthresh < 2 * mss {
        ssthresh := mss * 2;
      }
      cwnd := mss;
      sndNxt := sndUna;
      nxt := Una() + if FinDone() then 1 else 0;
    }
  }

  // ---- two runs that the model admits

  lemma SecondIsFurther(j: Job, from: int, segs: seq<Segment>, nxt: int, window: int)
    requires Sent(j, from, segs, nxt, window) && |segs| == 2
    ensures nxt > from + j.maxlen
  {
    var p := nxt - |segs[1].payload|;
    assert Fits(segs[1], j.maxlen, j.limit) && segs[..1][0] == segs[0];
    assert |segs[0].payload| == j.maxlen && Covers(j.stream, j.base, from, segs[..1], p);
    assert Covers(j.stream, j.base, from, segs[..1][..0], p - j.maxlen);
  }

  /** With room in the window and in the device one flush sends everything. */
  lemma SendsAll(j: Job, segs: seq<Segment>, nxt: int, code: int)
    requires Flushed(j, 0, segs, nxt, code, 2) && j.una == 0 && |j.stream| < j.maxlen <= j.limit &&
      2 * |j.stream| <= j.window
    ensures nxt == |j.stream|
  {
    if |segs| == 2 {
      SecondIsFurther(j, 0, segs, nxt, j.window - nxt);
    }
  }

  /** A new connection with thirty bytes written. */
  method Loaded() returns (s: Sender)
    ensures fresh(s) && s.Valid() && s.InOrder() && s.sndbuf != null && fresh(s.sndbuf) && s.sndbuf.len == 30
    ensures s.iss == 999 && s.wscalePeer == 0 && |s.Written()| == 30 && s.Una() == s.nxt == 0 && s.peerWnd == 100
    ensures s.wl1 == MAXSEQ && s.dupAcks == 0 && s.mss == s.effMss == 62 && s.cwnd == 124
  {
    hide Holds;
    s := new Sender(999, 100, 62);
    s.Establish();
    s.TakeWindow(false, 100);
    var n := s.UserCopyFromUser(seq(30, i => 7));
  }

  /** Thirty bytes are written and sent. */
  method Thirty() returns (s: Sender)
    ensures fresh(s) && s.Valid() && s.InOrder() && s.sndbuf != null && fresh(s.sndbuf)
    ensures s.iss == 999 && s.wscalePeer == 0 && |s.Written()| == s.nxt == 30 && s.Una() == 0 && s.peerWnd == 100
    ensures s.wl1 == MAXSEQ && s.dupAcks == 0 && s.mss == s.effMss == 62
  {
    hide Flushed, Sender.BufferValid, SendBuffer.Valid;
    s := Loaded();
    ghost var j := s.FlushJob();
    var code, segs, ok := s.FlushSendbuffer(2);
    SendsAll(j, segs, s.nxt, code);
  }

  /** A sender in the middle of a transfer: of thirty bytes sent twenty are acknowledged, by two
      segments with the same sequence number. */
  method Midway() returns (s: Sender)
    ensures fresh(s) && s.Valid() && s.InOrder() && s.sndbuf != null && fresh(s.sndbuf)
    ensures s.iss == 999 && s.wscalePeer == 0 && |s.Written()| == s.nxt == 30 && s.Una() == 20 && s.peerWnd == 100
    ensures s.wl1 == s.wl2 == s.lastAckSeq == 1020 && s.dupAcks == 0 && s.mss == s.effMss == 62
  {
    hide Grown, Reacted, HalfWindow, Sender.Outdated, Sender.PrescribedWindow;
    s := Thirty();
    var dup := s.TakeSegment(ESTABLISHED, false, 1020, 1010, 100, 0, 10);
    dup := s.TakeSegment(ESTABLISHED, false, 1020, 1020, 100, 0, 20);
  }

  /** A late copy of the first of these acknowledgements. */
  method Late(s: Sender)
    requires s.Valid() && s.sndbuf != null && |s.Written()| == 30 && s.Una() == 20 && s.nxt == 30
    requires s.iss == 999 && s.wscalePeer == 0 && s.mss == s.effMss == 62 && s.dupAcks < 256
    requires s.wl1 == s.wl2 == 1020 && (s.lastAckSeq == 1020 || s.lastAckSeq == 1010)
    modifies s, s.sndbuf
    ensures s.Valid() && s.sndbuf == old(s.sndbuf) && s.Written() == old(s.Written()) && s.Una() == 20
    ensures s.mss == s.effMss == 62 && s.wscalePeer == 0 && s.wl1 == s.wl2 == 1020 && s.lastAckSeq == 1010
    ensures s.dupAcks == if old(s.lastAckSeq) == 1010 then (old(s.dupAcks) + 1) % 256 else 0
    ensures s.nxt == if s.dupAcks == 3 then 10 else 30
  {
    hide Grown, Reacted, HalfWindow, Sender.Outdated, Sender.PrescribedWindow, Sender.BufferValid;
    var dup := s.TakeSegment(ESTABLISHED, false, 1020, 1010, 100, 0, 10);
  }

  /** Four late copies of the first of these acknowledgements: the last is the third duplicate, it
      moves `snd_nxt` below `snd_una`, and the assertion of the next flush fails. */
  method StaleDuplicates() returns (ok: bool)
    ensures !ok
  {
    hide Wrap, Sender.Valid, Sender.BufferValid;
    var s := Midway();
    for i := 0 to 4
      invariant fresh(s) && s.Valid() && s.sndbuf != null && fresh(s.sndbuf)
      invariant s.iss == 999 && s.wscalePeer == 0 && |s.Written()| == 30 && s.Una() == 20 && s.mss == s.effMss == 62
      invariant s.wl1 == s.wl2 == 1020 && s.dupAcks == (if i == 0 then 0 else i - 1) && s.nxt == if i == 4 then 10
        else 30
      invariant s.lastAckSeq == if i == 0 then 1020 else 1010
    {
      Late(s);
    }
    assert s.sndbuf.len == 10 by {
      s.LenIsRest();
    }
    var code, segs;
    code, segs, ok := s.FlushSendbuffer(2);
  }

  /** A SYN on the established connection, with a number already acknowledged, leads there at once. */
  method SynThenFlush() returns (ok: bool)
    ensures !ok
  {
    hide Sender.Valid, Sender.BufferValid;
    var s := Midway();
    s.TakeSyn(1005, 5);
    s.LenIsRest();
    var code, segs;
    code, segs, ok := s.FlushSendbuffer(2);
  }

  /** One such late copy with a window of one byte closes the window, where the standard keeps it. */
  method LateSegmentCloses() returns (peerWnd: nat, ghost prescribed: nat)
    ensures peerWnd == 1 && prescribed == 100
  {
    hide Grown, Reacted, HalfWindow;
    var s := Midway();
    prescribed := s.PrescribedWindow(1020, 1010, 1, 10);
    var dup := s.TakeSegment(ESTABLISHED, false, 1020, 1010, 1, 0, 10);
    peerWnd := s.peerWnd;
  }

  lemma NoOverflow(x: u32, n: nat)
    requires n < 0x1_0000
    ensures Wrap(x + n) > x <==> 0 < n && x + n < TWO32
  {}

  lemma NothingGrown(cwnd: u32, ssthresh: int, mss: nat, effMss: nat)
    requires 0 < effMss
    ensures Grown(cwnd, ssthresh, mss, U16(FullSegments(0, effMss))) == cwnd
  {
    assert 0 / effMss == 0;
  }

  /** Slow start opens the window by at most the bytes acknowledged and, for every full segment
      among them, the bytes that the options take from a segment; and it never shrinks the window,
      except exactly when the sum does not fit into 32 bits although one segment more does. */
  lemma GrowthIsBounded(cwnd: u32, ssthresh: int, mss: nat, effMss: nat, acked: nat)
    requires 0 < effMss <= mss < 0x1_0000
    ensures Grown(cwnd, ssthresh, mss, U16(FullSegments(acked, effMss))) <=
      cwnd + acked + (mss - effMss) * FullSegments(acked, effMss)
    ensures Grown(cwnd, ssthresh, mss, U16(FullSegments(acked, effMss))) < cwnd <==>
      cwnd < ssthresh && cwnd + mss < TWO32 <= cwnd + mss * U16(FullSegments(acked, effMss))
  {
    hide Wrap, Grown, U16, FullSegments;
    Shares(acked, effMss, mss);
    var k := FullSegments(acked, effMss);
    GrownFor(cwnd, ssthresh, mss, k, cwnd + acked + (mss - effMss) * k);
  }

  lemma GrownFor(cwnd: u32, ssthresh: int, mss: nat, k: nat, top: int)
    requires 0 < mss < 0x1_0000 && cwnd <= top && cwnd + mss * k <= top
    ensures Grown(cwnd, ssthresh, mss, U16(k)) <= top
    ensures Grown(cwnd, ssthresh, mss, U16(k)) < cwnd <==> cwnd < ssthresh && cwnd + mss < TWO32 <= cwnd + mss * U16(k)
  {
    hide Wrap, Grown;
    MulMonotone(U16(k), k, mss);
    GrownEither(cwnd, ssthresh, mss, U16(k), top);
  }

  lemma Shares(x: nat, part: nat, more: nat)
    requires 0 < part <= more
    ensures var k := FullSegments(x, part);
      0 <= more * k <= x + (more - part) * k && x <= x + (more - part) * k
  {
    var k := x / part;
    assert x == part * k + x % part;
    MulMonotone(0, k, more - part);
    MulMonotone(0, k, more);
  }

  lemma GrownEither(cwnd: u32, ssthresh: int, mss: nat, n: nat, top: int)
    requires 0 < mss < 0x1_0000 && n < 0x1_0000 && cwnd <= top && cwnd + mss * n <= top
    ensures Grown(cwnd, ssthresh, mss, n) <= top
    ensures Grown(cwnd, ssthresh, mss, n) < cwnd <==> cwnd < ssthresh && cwnd + mss < TWO32 <= cwnd + mss * n
  {
    hide Wrap;
    MulMonotone(0, n, mss);
    MulMonotone(n, 0xFFFF, mss);
    WrapOnce(cwnd + mss * n);
  }

  lemma WrapOnce(x: int)
    requires 0 <= x < 2 * TWO32
    ensures Wrap(x) == if x < TWO32 then x else x - TWO32
  {}

  /** Lines 2474-2489, with the 16-bit variable they use. */
  method Shortest(buffered: int, maxlen: int, window: int) returns (n: nat)
    requires 0 <= buffered < 0x8000 && 0 <= maxlen && 0 <= window
    ensures n == NextLen(buffered, maxlen, window)
  {
    if buffered == 0 {
      return 0;
    }
    n := if buffered > maxlen then U16(maxlen) else U16(buffered);
    if n > window {
      n := U16(window);
    }
  }

  lemma HoldsSlice(w: seq<byte>, h: nat, len: nat, stream: seq<byte>, removed: nat, pos: nat, n: nat)
    requires Holds(w, h, len, stream, removed) && removed <= pos && pos + n <= |stream|
    ensures w[h + (pos - removed)..h + (pos - removed) + n] == stream[pos..pos + n]
  {}
}
