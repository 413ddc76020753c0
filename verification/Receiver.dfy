/** The receiving half of a connection: acceptance of payload and reads by the application,
    over the reassembly buffer. Position `p` of the peer's stream has the number
    `irs + 1 + p`; the peer's FIN has not been received. */
module Receivers {
  import opened SeqArith
  import opened Spans
  import opened Reassembly
  import opened TcpState

  const INITIAL_WINDOW := 14600

  /** What a receiver knows, as a value: `removed` bytes have been handed out or thrown away, the
      next `merged` ones may be handed out, `bytes` are all that have arrived, by position. `nxt`
      is the position of `rcv_nxt` and `window` is `rcv_wnd`; until the first payload the window
      is the constant of CreateTcpStream and not `settled` by the buffer. */
  datatype View = View(removed: int, merged: int, spans: seq<Span>, bytes: map<int, byte>, nxt: int, window: int,
    settled: bool)
  {
    /** The first position that the peer may not send. */
    ghost function Edge(): int {
      nxt + window
    }

    /** The window test of user_tcp_process_payload. */
    ghost predicate Admits(end: int) {
      nxt <= end <= Edge()
    }

    /** The end of a segment lies within 2^31 of everything it is compared with. */
    ghost predicate Near(end: int) {
      Edge() - HALF < end < nxt + HALF
    }

    ghost predicate Consistent(size: nat) {
      && nxt == removed + merged && 0 <= merged <= size
      && window == (if settled then size - merged else INITIAL_WINDOW)
      && (!settled ==> nxt == removed == 0 && spans == [])
    }
  }

  /** What user_tcp_process_payload makes of a segment at `pos`; `put` is the answer of RBPut. In
      the two FIN_WAIT states what could be handed out is thrown away; `kept` tells whether the
      remaining bytes stay where they are looked for. */
  ghost predicate Processed(v: View, w: View, size: nat, discards: bool, payload: seq<byte>, pos: int, r: int,
      put: int, kept: bool) {
    if v.Admits(pos + |payload|) then
      && put == (if pos < v.removed then 0 else if pos + |payload| > v.removed + size then -2 else |payload|)
      && Took(v, w, size, discards, payload, pos, put > 0, kept)
      && w.settled && r == if w.nxt > v.nxt then 1 else 0
    else
      w == v && r == 0 && put == 0
  }

  ghost predicate Took(v: View, w: View, size: nat, discards: bool, payload: seq<byte>, pos: int, stored: bool,
      kept: bool) {
    var spans := if stored then Put(v.spans, Span(pos, pos + |payload|)) else v.spans;
    var bytes := if stored then v.bytes + Payload(payload, pos) else v.bytes;
    var run := Run(spans, v.removed);
    if discards then
      && w.merged == 0 && w.removed == v.removed + run && v.merged <= run <= size
      && 0 <= run && (0 < run ==> spans != []) && w.spans == Cut(spans, run)
      && (kept ==> w.bytes == From(bytes, w.removed))
    else
      && w.removed == v.removed && w.merged == run >= v.merged && w.spans == spans && w.bytes == bytes
  }

  /** It is a statement about the buffer alone. */
  lemma TookEither(v: View, w: View, x: View, size: nat, discards: bool, payload: seq<byte>, pos: int, stored: bool,
      kept: bool)
    requires Took(v, w, size, discards, payload, pos, stored, kept)
    requires x == w.(nxt := x.nxt, window := x.window, settled := x.settled)
    ensures Took(v, x, size, discards, payload, pos, stored, kept)
  {}

  /** `out` are the bytes that the application has not got yet, from the first on. */
  ghost predicate Copied(v: View, out: seq<byte>) {
    forall p :: v.removed <= p < v.removed + |out| ==> p in v.bytes && v.bytes[p] == out[p - v.removed]
  }

  /** What user_copy_to_user does: the application gets the bytes at the next positions, in
      order. `kept` tells whether the remaining bytes stay where they are looked for. */
  ghost predicate Read(v: View, w: View, len: int, r: int, out: seq<byte>, kept: bool) {
    && r == (if len < 0 then -1 else if len < v.merged then len else v.merged)
    && |out| == (if r > 0 then r else 0)
    && Copied(v, out) && w.removed == v.removed + |out| && w.merged == v.merged - |out| && w.nxt == v.nxt
    && (kept ==> w.bytes == From(v.bytes, w.removed))
    && w.settled == (v.settled || |out| > 0)
  }

  /** It is a statement about the buffer, and that the window is settled. */
  lemma ReadEither(v: View, w: View, x: View, n: nat, out: seq<byte>, kept: bool)
    requires n > 0 && Read(v, w.(settled := true), n, n, out, kept)
    requires x == w.(window := x.window, settled := true)
    ensures Read(v, x, n, n, out, kept)
  {}

  /** The right edge of the window never moves back once the window is settled (section 3.8.6 of
      RFC 9293), and then a segment that passes the window test has room in the buffer. */
  lemma EdgeAdvances(v: View, w: View, size: nat, discards: bool, payload: seq<byte>, pos: int, r: int, put: int,
      kept: bool)
    requires v.Consistent(size) && w.Consistent(size) && Processed(v, w, size, discards, payload, pos, r, put, kept)
    ensures w.settled ==> w.Edge() == w.removed + size
    ensures v.settled ==> w.settled && w.Edge() >= v.Edge() && w.nxt >= v.nxt && put != -2
  {}

  lemma EdgeAdvancesOnRead(v: View, w: View, size: nat, len: int, r: int, out: seq<byte>, kept: bool)
    requires v.Consistent(size) && w.Consistent(size) && Read(v, w, len, r, out, kept)
    ensures v.settled ==> w.settled && w.Edge() == v.Edge() + |out| && w.nxt == v.nxt
  {}

  /** The first payload is the exception: it takes back what the initial window of 14600 bytes
      offered beyond the size of the buffer, and a payload in that part is refused by RBPut
      although it passed the window test. */
  lemma InitialWindowIsTakenBack(v: View, w: View, size: nat, payload: seq<byte>, pos: int, r: int, put: int,
      kept: bool)
    requires v.Consistent(size) && w.Consistent(size) && !v.settled && v.Admits(pos + |payload|)
    requires Processed(v, w, size, false, payload, pos, r, put, kept)
    ensures w.Edge() == size && (w.Edge() < v.Edge() <==> size < INITIAL_WINDOW)
    ensures put == -2 <==> 0 <= pos && size < pos + |payload|
  {}

  /** The segment brings the next bytes in order: it starts within what may be handed out or right
      behind it, ends beyond that, and is admitted and has room. */
  ghost predicate Continues(v: View, size: nat, pos: int, end: int) {
    v.removed <= pos <= v.nxt < end <= v.removed + size && v.Admits(end)
  }

  /** The fragments and bytes of a view belong together. */
  ghost predicate Orderly(v: View) {
    && Canonical(v.spans) && (v.spans != [] ==> v.removed <= v.spans[0].lo)
    && v.merged == Run(v.spans, v.removed)
  }

  /** Exactly then the number acknowledged advances, and at least to the end of the segment. */
  lemma AdvancesIff(v: View, w: View, size: nat, payload: seq<byte>, pos: int, r: int, put: int, kept: bool)
    requires v.Consistent(size) && w.Consistent(size) && Orderly(v) && |payload| > 0
    requires Processed(v, w, size, false, payload, pos, r, put, kept)
    ensures w.nxt > v.nxt <==> Continues(v, size, pos, pos + |payload|)
    ensures w.nxt > v.nxt ==> w.nxt >= pos + |payload| && r == 1 && w.settled
  {
    hide Canonical, Covered, Payload, Put, Run;
    var x := Span(pos, pos + |payload|);
    if put > 0 {
      RunAfterPut(v.spans, x, v.removed);
    }
  }

  lemma RunAfterPut(s: seq<Span>, x: Span, lo: int)
    requires Canonical(s) && (s != [] ==> lo <= s[0].lo) && lo <= x.lo < x.hi
    ensures x.lo <= lo + Run(s, lo) < x.hi ==> lo + Run(Put(s, x), lo) >= x.hi
    ensures !(x.lo <= lo + Run(s, lo) < x.hi) ==> Run(Put(s, x), lo) == Run(s, lo)
  {
    hide Canonical, Covered, Put, Run;
    var end, after := lo + Run(s, lo), lo + Run(Put(s, x), lo);
    PutCanonical(s, x);
    PutRun(s, x, lo);
    RunIsMaximal(s, lo);
    RunIsMaximal(Put(s, x), lo);
    PutCovers(s, x, after);
    PutCovers(s, x, end);
    assert InSpan(after, x) <==> x.lo <= after < x.hi;
    assert InSpan(end, x) <==> x.lo <= end < x.hi;
  }

  predicate Discards(state: State) {
    state == FIN_WAIT_1 || state == FIN_WAIT_2
  }

  class Receiver {
    const irs: u32
    const size: nat
    const addOffset: bool
    var rcvNxt: u32
    var rcvWnd: u32
    var recvbuf: RingBuffer?
    var effMss: nat
    var needWndAdv: bool
    var onAckq: bool

    /** The position that `rcvNxt` stands for, and whether the window has been computed from the
        buffer yet: until the first payload it is the constant of CreateTcpStream. */
    ghost var nxt: int
    ghost var settled: bool

    function Num(pos: int): u32 {
      Wrap(irs + 1 + pos)
    }

    ghost function Footprint(): set<object>
      reads this`recvbuf, recvbuf
    {
      if recvbuf == null then {} else {recvbuf, recvbuf.data} + set f | f in recvbuf.frags
    }

    ghost predicate BufferValid()
      reads this`recvbuf, Footprint()
    {
      recvbuf != null && recvbuf.Valid() && recvbuf.Size() == size && recvbuf.initSeq == Num(0) &&
        recvbuf.addOffset == addOffset
    }

    ghost predicate Valid()
      reads this`rcvNxt, this`rcvWnd, this`recvbuf, this`nxt, this`settled, Footprint()
    {
      && INITIAL_WINDOW + size < HALF / 2
      && rcvNxt == Num(nxt) && Look().Consistent(size)
      && (recvbuf == null ==> !settled)
      && (recvbuf != null ==> BufferValid())
    }

    ghost function Look(): View
      reads this`rcvWnd, this`recvbuf, this`nxt, this`settled, recvbuf, if recvbuf == null then {} else {recvbuf.data}
    {
      if recvbuf == null then View(0, 0, [], map[], nxt, rcvWnd, settled)
      else View(recvbuf.removed, recvbuf.mergedLen, recvbuf.spans,
                if recvbuf.WindowValid() then recvbuf.Bytes() else map[], nxt, rcvWnd, settled)
    }

    /** A removal leaves the other bytes where they are looked for (see IntendedRemoveKeepsBytes and
        CompiledRemoveKeepsBytes). */
    ghost predicate Keeps()
      reads this`recvbuf, recvbuf
    {
      recvbuf == null || addOffset || recvbuf.headOffset == 0
    }

    constructor (irs: u32, size: nat, addOffset: bool)
      requires INITIAL_WINDOW + size < HALF / 2
      ensures Valid() && recvbuf == null && !settled
      ensures this.irs == irs && this.size == size && this.addOffset == addOffset
    {
      this.irs, this.size, this.addOffset := irs, size, addOffset;
      rcvNxt, rcvWnd, recvbuf := Wrap(irs + 1), INITIAL_WINDOW, null;
      effMss, needWndAdv, onAckq := 0, false, false;
      nxt, settled := 0, false;
    }

    /** `merged` is how far the received bytes reach without a gap. */
    lemma MergedIsRun()
      requires Valid()
      ensures Look().nxt == nxt == Look().removed + Look().merged && Look().window == rcvWnd &&
        Look().settled == settled
      ensures 0 <= Look().merged && Look().removed + Look().merged !in Look().bytes
      ensures forall p :: Look().removed <= p < Look().removed + Look().merged ==> p in Look().bytes
    {
      hide Wrap, RingBuffer.Valid, Run;
      if recvbuf != null {
        recvbuf.MergedFits();
      }
    }

    lemma NextNumber()
      requires Valid()
      ensures rcvNxt == Num(nxt)
    {}

    lemma IsOrderly()
      requires Valid()
      ensures Orderly(Look())
    {
      hide Wrap, Chain, Numbered;
    }

    /** Lines 597 and 616-619: the number and the window field of an outgoing acknowledgement. */
    method Advertise(wscale: nat) returns (ackSeq: u32, window: nat)
      modifies this`needWndAdv
      ensures ackSeq == rcvNxt && window == WindowField(rcvWnd, wscale)
      ensures needWndAdv == (old(needWndAdv) || window == 0)
    {
      var window32 := Shr(rcvWnd, wscale);
      ackSeq, window := rcvNxt, Min(window32, MAX_WINDOW);
      if window32 == 0 {
        needWndAdv := true;
      }
    }

    /** user_tcp_process_payload. */
    method ProcessPayload(state: State, payload: seq<byte>, seqNum: u32, ghost pos: int) returns (r: int, put: int)
      requires Valid() && 0 < |payload| < 0x1_0000 && seqNum == Num(pos) && Look().Near(pos + |payload|)
      modifies this`rcvNxt, this`rcvWnd, this`recvbuf, this`nxt, this`settled, Footprint()
      ensures Valid() && forall o :: o in Footprint() && o !in old(Footprint()) ==> fresh(o)
      ensures Processed(old(Look()), Look(), size, Discards(state), payload, pos, r, put,
        old(Keeps()) || Look().spans == [])
    {
      hide Wrap, SeqLt, SeqGt, SeqLeq, BufferValid, Put, Run, Payload;
      var end := Wrap(seqNum + |payload|);
      WindowNumbers(pos + |payload|);
      Onward(irs + 1, pos, |payload|);
      if SeqLt(end, rcvNxt) {
        return 0, 0;
      }
      if SeqGt(end, Wrap(rcvNxt + rcvWnd)) {
        return 0, 0;
      }
      var before := rcvNxt;
      put := Store(state, payload, seqNum, pos);
      OrderAgrees(irs + 1 + nxt, irs + 1 + old(nxt));
      r := if SeqLeq(rcvNxt, before) then 0 else 1;
    }

    lemma WindowNumbers(end: int)
      requires Valid() && Look().Near(end)
      ensures SeqLt(Num(end), rcvNxt) <==> end < nxt
      ensures SeqGt(Num(end), Wrap(rcvNxt + rcvWnd)) <==> end > nxt + rcvWnd
    {
      hide Wrap, SeqLt, SeqGt, BufferValid;
      Onward(irs + 1, nxt, rcvWnd);
      OrderAgrees(irs + 1 + end, irs + 1 + nxt);
      OrderAgrees(irs + 1 + end, irs + 1 + (nxt + rcvWnd));
    }

    /** Lines 1475-1523: a payload that passed the window test. */
    method Store(state: State, payload: seq<byte>, seqNum: u32, ghost pos: int) returns (put: int)
      requires Valid() && 0 < |payload| < 0x1_0000 && seqNum == Num(pos) && Look().Admits(pos + |payload|)
      modifies this`rcvNxt, this`rcvWnd, this`recvbuf, this`nxt, this`settled, Footprint()
      ensures Valid() && settled && forall o :: o in Footprint() && o !in old(Footprint()) ==> fresh(o)
      ensures Took(old(Look()), Look(), size, Discards(state), payload, pos, put > 0,
        old(Keeps()) || Look().spans == [])
      ensures var v := old(Look()); put == if pos < v.removed then 0
        else if pos + |payload| > v.removed + size then -2 else |payload|
    {
      hide Wrap, Took, Look, Keeps, BufferValid, RingBuffer.Valid, RingBuffer.WindowValid, RingBuffer.Bytes;
      ghost var v, kept := Look(), Keeps();
      MergedIsRun();
      Open();
      put := PutAndDiscard(state, payload, seqNum, pos);
      ghost var w := Look();
      Renumber();
      TookEither(v, w, Look(), size, Discards(state), payload, pos, put > 0, kept || w.spans == []);
    }

    /** Lines 1475-1488. */
    method Open()
      requires Valid()
      modifies this`recvbuf
      ensures Valid() && recvbuf != null && Look() == old(Look()) && Keeps() == old(Keeps())
      ensures recvbuf == old(recvbuf) || (fresh(recvbuf) && fresh(recvbuf.data) && recvbuf.frags == [])
    {
      hide Wrap, RingBuffer.ListValid, Run;
      if recvbuf == null {
        recvbuf := new RingBuffer(size, Num(0), addOffset);
        assert Cover([]) == {};
        assert recvbuf.Bytes() == map[];
      }
    }

    /** Lines 1510-1520. */
    method PutAndDiscard(state: State, payload: seq<byte>, seqNum: u32, ghost pos: int) returns (put: int)
      requires Valid() && BufferValid() && 0 < |payload| < 0x1_0000 && seqNum == Num(pos) &&
        Look().Admits(pos + |payload|)
      modifies Footprint()
      ensures BufferValid() && forall o :: o in Footprint() && o !in old(Footprint()) ==> fresh(o)
      ensures Took(old(Look()), Look(), size, Discards(state), payload, pos, put > 0,
        old(Keeps()) || Look().spans == [])
      ensures var v := old(Look()); put == if pos < v.removed then 0
        else if pos + |payload| > v.removed + size then -2 else |payload|
    {
      hide Wrap, Put, Payload, Held, RingBuffer.ListValid, RingBuffer.WindowValid, Run;
      recvbuf.MergedFits();
      Onward(irs + 1, 0, pos);
      put := recvbuf.RBPut(payload, seqNum, pos);
      recvbuf.MergedFits();
      if Discards(state) {
        var n := recvbuf.RBRemove(recvbuf.mergedLen);
      }
    }

    /** Lines 1522-1523. */
    method Renumber()
      requires BufferValid() && INITIAL_WINDOW + size < HALF / 2
      modifies this`rcvNxt, this`rcvWnd, this`nxt, this`settled
      ensures Valid() && settled
      ensures Look() == old(Look()).(nxt := nxt, window := rcvWnd, settled := true)
    {
      hide Wrap, RingBuffer.ListValid;
      recvbuf.MergedFits();
      Onward(irs + 1, 0, recvbuf.removed);
      Onward(irs + 1, recvbuf.removed, recvbuf.mergedLen);
      nxt := recvbuf.removed + recvbuf.mergedLen;
      rcvNxt := Wrap(recvbuf.headSeq + recvbuf.mergedLen);
      rcvWnd := recvbuf.Size() - recvbuf.mergedLen;
      settled := true;
    }

    /** user_copy_to_user. */
    method UserCopyToUser(len: int) returns (r: int, out: seq<byte>)
      requires Valid() && recvbuf != null && len < HALF
      modifies this`rcvWnd, this`settled, this`needWndAdv, this`onAckq, Footprint()
      ensures Valid() && forall o :: o in Footprint() ==> o in old(Footprint())
      ensures Read(old(Look()), Look(), len, r, out, old(Keeps()) || Look().spans == [])
      // a window update is requested once the window has room for a segment again
      ensures if old(needWndAdv) && r > 0 && rcvWnd > effMss && !old(onAckq) then onAckq && !needWndAdv
              else onAckq == old(onAckq) && needWndAdv == old(needWndAdv)
    {
      hide Wrap, RingBuffer.Valid, From, Held, Cover;
      var copylen := if recvbuf.mergedLen < len then recvbuf.mergedLen else len;
      if copylen <= 0 {
        NothingTaken();
        return if copylen < 0 then -1 else 0, [];
      }
      out := Take(copylen);
      r := copylen;
      AdvertiseWindow();
    }

    /** Lines 56-59 of src/user_api.c. */
    method Take(n: nat) returns (out: seq<byte>)
      requires Valid() && recvbuf != null && 0 < n <= recvbuf.mergedLen && n < HALF
      modifies this`rcvWnd, this`settled, Footprint()
      ensures Valid() && forall o :: o in Footprint() ==> o in old(Footprint())
      ensures Read(old(Look()), Look(), n, n, out, old(Keeps()) || Look().spans == [])
    {
      hide Wrap, Read, Keeps, RingBuffer.Valid, RingBuffer.WindowValid, RingBuffer.Bytes;
      ghost var v, kept := Look(), Keeps();
      out := TakeOut(n);
      ghost var w := Look();
      recvbuf.MergedFits();
      rcvWnd := recvbuf.Size() - recvbuf.mergedLen;
      settled := true;
      ReadEither(v, w, Look(), n, out, kept || w.spans == []);
    }

    method TakeOut(n: nat) returns (out: seq<byte>)
      requires Valid() && recvbuf != null && 0 < n <= recvbuf.mergedLen && n < HALF
      modifies Footprint()
      ensures BufferValid() && nxt == recvbuf.removed + recvbuf.mergedLen
      ensures forall o :: o in Footprint() ==> o in old(Footprint())
      ensures Read(old(Look()), Look().(settled := true), n, n, out, old(Keeps()) || Look().spans == [])
    {
      hide Wrap, From, Copied, RingBuffer.Valid, RingBuffer.WindowValid, RingBuffer.Bytes, Run, Cover;
      ghost var v, kept := Look(), Keeps();
      recvbuf.MergedFits();
      assert v.bytes == recvbuf.Bytes();
      out := CopyOut(n);
      assert Copied(v, out);
      var removed := recvbuf.RBRemove(n);
      recvbuf.MergedFits();
      assert kept || recvbuf.spans == [] ==> recvbuf.Bytes() == From(v.bytes, recvbuf.removed);
    }

    /** Lines 64-77 of src/user_api.c. */
    method AdvertiseWindow()
      modifies this`needWndAdv, this`onAckq
      ensures if old(needWndAdv) && rcvWnd > effMss && !old(onAckq) then onAckq && !needWndAdv
              else onAckq == old(onAckq) && needWndAdv == old(needWndAdv)
    {
      if needWndAdv {
        if rcvWnd > effMss {
          if !onAckq {
            onAckq, needWndAdv := true, false;
          }
        }
      }
    }

    lemma NothingTaken()
      requires BufferValid()
      ensures Look().bytes == From(Look().bytes, Look().removed)
    {
      hide Wrap, RingBuffer.ListValid;
      CoverWithin(recvbuf.spans, recvbuf.removed, recvbuf.removed + recvbuf.lastLen);
      FromAll(recvbuf.Bytes(), recvbuf.removed);
    }

    method CopyOut(n: nat) returns (out: seq<byte>)
      requires BufferValid() && n <= recvbuf.mergedLen
      ensures |out| == n && Copied(Look(), out)
    {
      hide Wrap, RingBuffer.ListValid;
      recvbuf.MergedFits();
      out := recvbuf.data[recvbuf.head..recvbuf.head + n];
      assert forall p :: recvbuf.removed <= p < recvbuf.removed + n ==> p in Cover(recvbuf.spans);
    }
  }
}
