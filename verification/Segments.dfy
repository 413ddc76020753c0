/** Runs of data segments: what one call of user_tcp_flush_sendbuffer puts on the wire. */
module Segments {
  import opened SeqArith

  datatype Segment = Segment(seqNum: u32, payload: seq<byte>)

  /** The segments lead from position `a` to position `b` without gap or overlap: each carries
      the bytes of the stream at its place, and that place's number, counted from `base`. */
  ghost predicate Covers(stream: seq<byte>, base: int, a: int, segs: seq<Segment>, b: int)
    decreases |segs|
  {
    if segs == [] then a == b
    else
      var last := segs[|segs| - 1];
      var p := b - |last.payload|;
      && 0 <= p && b <= |stream| && last.seqNum == Wrap(base + p) && last.payload == stream[p..b]
      && Covers(stream, base, a, segs[..|segs| - 1], p)
  }

  lemma CoversOneMore(stream: seq<byte>, base: int, a: int, segs: seq<Segment>, p: int, s: Segment, b: int)
    requires Covers(stream, base, a, segs, p) && 0 <= p <= b <= |stream|
    requires s == Segment(Wrap(base + p), stream[p..b])
    ensures Covers(stream, base, a, segs + [s], b)
  {
    assert (segs + [s])[..|segs|] == segs;
  }

  function Payloads(segs: seq<Segment>): seq<byte> {
    if segs == [] then [] else Payloads(segs[..|segs| - 1]) + segs[|segs| - 1].payload
  }

  /** Together the segments carry exactly the bytes between the two positions. */
  lemma {:induction false} CoversIsSlice(stream: seq<byte>, base: int, a: int, segs: seq<Segment>, b: int)
    requires Covers(stream, base, a, segs, b) && 0 <= a && b <= |stream|
    ensures a <= b && Payloads(segs) == stream[a..b]
  {
    if segs != [] {
      var p := b - |segs[|segs| - 1].payload|;
      CoversIsSlice(stream, base, a, segs[..|segs| - 1], p);
      assert stream[a..p] + stream[p..b] == stream[a..b];
    }
  }

  /** A segment is not empty and not longer than the maximal payload. */
  predicate Fits(s: Segment, maxlen: int, limit: int) {
    0 < |s.payload| <= Min(maxlen, limit)
  }

  /** Why a flush has stopped: `len` is the length of what it would have sent next, `ahead` the
      bytes in flight, `window` what is left of the window, `limit` the longest payload that the
      packet writer accepts. */
  predicate StopsFor(code: int, len: int, ahead: int, window: int, limit: int) {
    && -3 <= code
    && (code >= 0 <==> len == 0)
    && (code == -3 <==> len != 0 && ahead + len > window)
    && (code == -1 <==> len != 0 && ahead + len <= window && len > limit)
  }

  /** The length of the next segment: all that is queued, one maximal payload, or the window. */
  function NextLen(queued: int, maxlen: int, window: int): int {
    Min(Min(queued, maxlen), window)
  }

  /** What a flush is given: the bytes written and how many are acknowledged, the longest payload
      of a full segment and the longest one that the packet writer accepts, the window. */
  datatype Job = Job(stream: seq<byte>, base: int, una: nat, maxlen: nat, limit: nat, window: nat)

  /** The segments sent so far, and what they leave of the window. */
  ghost predicate Sent(j: Job, from: int, segs: seq<Segment>, nxt: int, window: int) {
    && 0 <= from <= nxt <= |j.stream| && Covers(j.stream, j.base, from, segs, nxt)
    && window == j.window - (nxt - from) && 0 <= window
    && (segs != [] ==> nxt <= j.una + j.window)
    && (forall i :: 0 <= i < |segs| ==> Fits(segs[i], j.maxlen, j.limit))
    && (forall i :: 0 <= i < |segs| - 1 ==> |segs[i].payload| == j.maxlen)
    && (segs == [] || |segs[|segs| - 1].payload| == j.maxlen || window == 0 || nxt == |j.stream|)
  }

  lemma SentOneMore(j: Job, from: int, segs: seq<Segment>, nxt: int, window: int, n: nat, s: Segment)
    requires Sent(j, from, segs, nxt, window) && j.una <= nxt
    requires n == NextLen(|j.stream| - nxt, j.maxlen, window) && 0 < n <= j.limit && nxt - j.una + n <= window
    requires s == Segment(Wrap(j.base + nxt), j.stream[nxt..nxt + n])
    ensures Sent(j, from, segs + [s], nxt + n, window - n)
  {
    CoversOneMore(j.stream, j.base, from, segs, nxt, s, nxt + n);
    var t := segs + [s];
    forall i | 0 <= i < |t|
      ensures Fits(t[i], j.maxlen, j.limit) && (i < |t| - 1 ==> |t[i].payload| == j.maxlen)
    {
      if i < |segs| {
        assert t[i] == segs[i] && Fits(segs[i], j.maxlen, j.limit);
      }
    }
  }

  /** What one call may send: nothing beyond the window that was open on entry, every segment
      but the last of full size, and it stops for the reason that the code names; `room` is the
      number of packets that the device accepts. */
  ghost predicate Flushed(j: Job, from: int, segs: seq<Segment>, nxt: int, code: int, room: nat) {
    && Sent(j, from, segs, nxt, j.window - (nxt - from))
    && StopsFor(code, NextLen(|j.stream| - nxt, j.maxlen, j.window - (nxt - from)), nxt - j.una,
      j.window - (nxt - from), j.limit)
    && (code >= 0 ==> code == |segs|) && (code == -2 ==> |segs| == room) && |segs| <= room
  }

  /** If something is queued and the window is open, a flush that may send one packet sends one. */
  lemma FirstGoesOut(j: Job, segs: seq<Segment>, nxt: int, code: int)
    requires Flushed(j, j.una, segs, nxt, code, 1) && j.una < |j.stream| && 0 < j.maxlen <= j.limit && 0 < j.window
    ensures |segs| == 1 && j.una < nxt <= |j.stream| && nxt - j.una <= Min(j.maxlen, j.window)
    ensures segs[0] == Segment(Wrap(j.base + j.una), j.stream[j.una..nxt])
  {
    if |segs| == 1 {
      assert Covers(j.stream, j.base, j.una, segs[..0], nxt - |segs[0].payload|) && Fits(segs[0], j.maxlen, j.limit);
    }
  }

  lemma Stopped(j: Job, from: int, segs: seq<Segment>, nxt: int, window: int, n: int, code: int, room: nat)
    requires Sent(j, from, segs, nxt, window) && n == NextLen(|j.stream| - nxt, j.maxlen, window) && |segs| <= room
    requires code == if n == 0 then |segs| else if nxt - j.una + n > window then -3 else if n > j.limit then -1 else -2
    requires code == -2 ==> |segs| == room
    ensures Flushed(j, from, segs, nxt, code, room)
  {}
}
