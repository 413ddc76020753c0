/** One direction of a connection as a whole: a writing application, the sender, a network that
    loses, repeats and reorders, the receiver and a reading application. All numbers are
    positions in the byte stream; Transfers ties them to the buffers. */
module EndToEnd {
  import opened SeqArith
  import opened Spans

  /** A data segment under way: where its bytes belong, and the bytes. */
  datatype Packet = Packet(pos: nat, payload: seq<byte>)

  /** `written` is what the sending application has handed over, `read` what the receiving one
      has got. The sender still keeps the bytes from `una` on and sends from `nxt` on; the
      receiver holds `held` by position, and may hand out the next `merged` of them. Packets and
      acknowledgements once sent may arrive at any time, any number of times, or never. */
  datatype World = World(
    written: seq<byte>, una: nat, nxt: int, packets: set<Packet>,
    read: seq<byte>, held: map<int, byte>, merged: nat, acks: set<nat>)

  /** The bytes of `held` at `n` positions from `lo` on. */
  ghost function Stretch(held: map<int, byte>, lo: nat, n: nat): seq<byte>
    requires forall p :: lo <= p < lo + n ==> p in held
  {
    seq(n, i requires 0 <= i < n => held[lo + i])
  }

  /** `n` is how far `held` reaches from `lo` on without a gap. */
  ghost predicate Reaches(held: map<int, byte>, lo: nat, n: nat) {
    (forall p :: lo <= p < lo + n ==> p in held) && lo + n !in held
  }

  /** The packet carries the bytes that belong at its place. */
  ghost predicate Genuine(p: Packet, written: seq<byte>) {
    p.pos + |p.payload| <= |written| && p.payload == written[p.pos..p.pos + |p.payload|]
  }

  ghost predicate Start(w: World) {
    w.written == [] && w.una == 0 && w.nxt == 0 && w.packets == {} &&
    w.read == [] && w.held == map[] && w.merged == 0 && w.acks == {}
  }

  ghost predicate Writes(v: World, w: World, bytes: seq<byte>) {
    w == v.(written := v.written + bytes)
  }

  /** The sender puts new packets with written bytes on the wire. */
  ghost predicate Sends(v: World, w: World, packets: set<Packet>) {
    && (forall p :: p in packets ==> v.nxt <= p.pos && p.pos + |p.payload| <= w.nxt && Genuine(p, v.written))
    && v.una <= v.nxt <= w.nxt <= |v.written|
    && w == v.(nxt := w.nxt, packets := v.packets + packets)
  }

  /** A timeout: sending starts over at the first unacknowledged byte. */
  ghost predicate StartsOver(v: World, w: World) {
    w == v.(nxt := v.una)
  }

  /** A packet arrives; it is stored, or refused by a window or space test. */
  ghost predicate Arrives(v: World, w: World, p: Packet) {
    && p in v.packets
    && (w.held == v.held || (|v.read| <= p.pos && w.held == v.held + Payload(p.payload, p.pos)))
    && Reaches(w.held, |v.read|, w.merged)
    && w == v.(held := w.held, merged := w.merged)
  }

  /** The receiver acknowledges what it can hand out. */
  ghost predicate Acknowledges(v: World, w: World) {
    w == v.(acks := v.acks + {|v.read| + v.merged})
  }

  /** An acknowledgement arrives. It may make the sender repeat from there, even an old one. */
  ghost predicate AckArrives(v: World, w: World, a: nat, again: bool) {
    && a in v.acks
    && w == v.(una := if v.una < a then a else v.una, nxt := if again || v.nxt < a then a else v.nxt)
  }

  /** The application reads the next `n` bytes. */
  ghost predicate Reads(v: World, w: World, n: nat) {
    && n <= v.merged && (forall p :: |v.read| <= p < |v.read| + n ==> p in v.held)
    && w == v.(read := v.read + Stretch(v.held, |v.read|, n), held := From(v.held, |v.read| + n),
      merged := v.merged - n)
  }

  datatype Event =
    | Write(bytes: seq<byte>) | Send(packets: set<Packet>) | StartOver
    | Arrive(packet: Packet) | Acknowledge | AckArrive(ack: nat, again: bool) | Read(n: nat) | Nothing

  ghost predicate Step(v: World, w: World, e: Event) {
    match e
    case Write(bytes) => Writes(v, w, bytes)
    case Send(packets) => Sends(v, w, packets)
    case StartOver => StartsOver(v, w)
    case Arrive(packet) => Arrives(v, w, packet)
    case Acknowledge => Acknowledges(v, w)
    case AckArrive(ack, again) => AckArrives(v, w, ack, again)
    case Read(n) => Reads(v, w, n)
    case Nothing => w == v
  }

  /** What holds at every moment. */
  ghost predicate Inv(w: World) {
    && w.una <= |w.read| + w.merged <= |w.written| && w.nxt <= |w.written|
    && w.read == w.written[..|w.read|]
    && (forall p :: p in w.packets ==> Genuine(p, w.written))
    && (forall a :: a in w.acks ==> a <= |w.read| + w.merged)
    && (forall p :: p in w.held ==> |w.read| <= p < |w.written| && w.held[p] == w.written[p])
    && Reaches(w.held, |w.read|, w.merged)
  }

  lemma WriteKeepsInv(v: World, w: World, bytes: seq<byte>)
    requires Inv(v) && Writes(v, w, bytes)
    ensures Inv(w)
  {
    assert w.written[..|v.written|] == v.written;
    forall p | p in w.packets
      ensures Genuine(p, w.written)
    {
      assert Genuine(p, v.written);
    }
  }

  lemma ArriveKeepsInv(v: World, w: World, p: Packet)
    requires Inv(v) && Arrives(v, w, p)
    ensures Inv(w) && v.merged <= w.merged
  {
    assert Genuine(p, v.written);
    forall q | q in w.held
      ensures |w.read| <= q < |w.written| && w.held[q] == w.written[q]
    {
      assert q in Payload(p.payload, p.pos) <==> InSpan(q, Span(p.pos, p.pos + |p.payload|));
    }
    assert w.merged < v.merged ==> |v.read| + w.merged in v.held;
    if w.merged > 0 {
      assert |w.read| + w.merged - 1 in w.held;
    }
  }

  lemma ReadKeepsInv(v: World, w: World, n: nat)
    requires Inv(v) && Reads(v, w, n)
    ensures Inv(w) && w.read == v.written[..|v.read| + n]
  {
    var s := Stretch(v.held, |v.read|, n);
    forall i | 0 <= i < n
      ensures s[i] == v.written[|v.read| + i]
    {
      assert |v.read| + i in v.held;
    }
    assert w.read == v.written[..|v.read| + n];
  }

  lemma StepKeepsInv(v: World, w: World, e: Event)
    requires Inv(v) && Step(v, w, e)
    ensures Inv(w)
    ensures v.written <= w.written && v.read <= w.read && v.una <= w.una && |v.read| + v.merged <= |w.read| + w.merged
  {
    match e
    case Write(bytes) => WriteKeepsInv(v, w, bytes);
    case Arrive(packet) => ArriveKeepsInv(v, w, packet);
    case Read(n) => ReadKeepsInv(v, w, n);
    case _ =>
  }

  /** The bytes in the sender's buffer. */
  ghost function Kept(w: World): seq<byte>
    requires w.una <= |w.written|
  {
    w.written[w.una..]
  }

  /** Whatever the network does, what has been read is a prefix of what was written, and what was
      written is what has been read, then what the receiver may hand out next, then what the
      sender still keeps from there on: no byte is released before it has been received. */
  ghost predicate Delivered(w: World) {
    && w.read <= w.written
    && w.una <= |w.read| + w.merged <= |w.written|
    && (forall p :: |w.read| <= p < |w.read| + w.merged ==> p in w.held)
    && w.written == w.read + Stretch(w.held, |w.read|, w.merged) + Kept(w)[|w.read| + w.merged - w.una..]
  }

  lemma InvDelivers(w: World)
    requires Inv(w)
    ensures Delivered(w)
  {
    var s, r := Stretch(w.held, |w.read|, w.merged), |w.read|;
    forall i | 0 <= i < w.merged
      ensures s[i] == w.written[r + i]
    {
      assert r + i in w.held;
    }
    assert s == w.written[r..r + w.merged];
    assert Kept(w)[r + w.merged - w.una..] == w.written[r + w.merged..];
    assert w.written == w.written[..r] + w.written[r..r + w.merged] + w.written[r + w.merged..];
  }

  ghost predicate Runs(run: seq<World>, events: seq<Event>) {
    |run| == |events| + 1 && Start(run[0]) && forall i :: 0 <= i < |events| ==> Step(run[i], run[i + 1], events[i])
  }

  lemma StartInv(w: World)
    requires Start(w)
    ensures Inv(w)
  {}

  lemma {:induction false} InvOnRuns(run: seq<World>, events: seq<Event>, k: nat)
    requires Runs(run, events) && k < |run|
    ensures Inv(run[k])
  {
    hide Inv, Step, Start;
    if k == 0 {
      StartInv(run[0]);
    } else {
      InvOnRuns(run, events, k - 1);
      StepKeepsInv(run[k - 1], run[k], events[k - 1]);
    }
  }

  /** Delivery on every run, and nothing read is ever taken back. */
  lemma {:induction false} RunsDeliver(run: seq<World>, events: seq<Event>, j: nat, k: nat)
    requires Runs(run, events) && j <= k < |run|
    ensures Delivered(run[k]) && run[j].read <= run[k].read && run[j].una <= run[k].una
    decreases k - j
  {
    hide Inv, Step, Delivered;
    InvOnRuns(run, events, k);
    InvDelivers(run[k]);
    if j < k {
      InvOnRuns(run, events, j);
      StepKeepsInv(run[j], run[j + 1], events[j]);
      RunsDeliver(run, events, j + 1, k);
    }
  }
}
