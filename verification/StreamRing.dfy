/** The lock-free ring of src/user_buffer.c with one producer and one consumer, as a machine
    whose steps are the single loads and stores of `_head`, `_tail` and the slots. The compiler
    barrier of the source keeps these in program order; they take effect one after the other. */
module StreamRing {

  datatype Option<T> = None | Some(value: T)

  function NextIndex(cap: nat, i: nat): nat {
    if i != cap then i + 1 else 0
  }

  /** Where StreamEnqueue is: before it, or behind its load of `_head`, its load of `_tail`, or
      its store into the slot. */
  datatype Producer<T> = Idle | LoadedHead(x: T, h: nat) | LoadedTail(x: T, h: nat, t: nat) | StoredSlot(x: T, t: nat)

  /** Where StreamDequeue is; `v` is what it loaded from the slot. */
  datatype Consumer<T> = Waiting | SawHead(h: nat) | SawTail(h: nat, t: nat) | LoadedSlot(h: nat, v: Option<T>)

  /** The fields of the queue, what the two threads hold in registers, and for the statements
      the history: every item published so far, every item taken, how many had been taken when
      the producer last loaded `_head` and published when the consumer last loaded `_tail`. */
  datatype Ring<T> = Ring(
    cap: nat, head: nat, tail: nat, slots: seq<Option<T>>, producer: Producer<T>, consumer: Consumer<T>,
    pushed: seq<T>, popped: seq<T>, takenSeen: nat, publishedSeen: nat)

  ghost predicate Init<T>(s: Ring<T>) {
    && s.head == s.tail == 0 && |s.slots| == s.cap + 1 && s.producer == Idle && s.consumer == Waiting
    && s.pushed == [] && s.popped == []
  }

  // ---- the steps of StreamEnqueue

  ghost predicate LoadHead<T>(s: Ring<T>, r: Ring<T>, x: T) {
    s.producer == Idle && r == s.(producer := LoadedHead(x, s.head), takenSeen := |s.popped|)
  }

  ghost predicate LoadTail<T(!new)>(s: Ring<T>, r: Ring<T>) {
    s.producer.LoadedHead? && r == s.(producer := LoadedTail(s.producer.x, s.producer.h, s.tail))
  }

  ghost predicate StoreSlot<T>(s: Ring<T>, r: Ring<T>) {
    && s.producer.LoadedTail? && NextIndex(s.cap, s.producer.t) != s.producer.h && s.producer.t < |s.slots|
    && r == s.(slots := s.slots[s.producer.t := Some(s.producer.x)], producer := StoredSlot(s.producer.x, s.producer.t))
  }

  /** The queue is reported full. */
  ghost predicate GiveUp<T>(s: Ring<T>, r: Ring<T>) {
    && s.producer.LoadedTail? && NextIndex(s.cap, s.producer.t) == s.producer.h
    && r == s.(producer := Idle)
  }

  ghost predicate StoreTail<T>(s: Ring<T>, r: Ring<T>) {
    && s.producer.StoredSlot?
    && r == s.(tail := NextIndex(s.cap, s.producer.t), producer := Idle, pushed := s.pushed + [s.producer.x])
  }

  // ---- the steps of StreamDequeue

  ghost predicate ReadHead<T>(s: Ring<T>, r: Ring<T>) {
    s.consumer == Waiting && r == s.(consumer := SawHead(s.head))
  }

  ghost predicate ReadTail<T>(s: Ring<T>, r: Ring<T>) {
    s.consumer.SawHead? && r == s.(consumer := SawTail(s.consumer.h, s.tail), publishedSeen := |s.pushed|)
  }

  ghost predicate ReadSlot<T>(s: Ring<T>, r: Ring<T>) {
    && s.consumer.SawTail? && s.consumer.h != s.consumer.t && s.consumer.h < |s.slots|
    && r == s.(consumer := LoadedSlot(s.consumer.h, s.slots[s.consumer.h]))
  }

  /** The queue is reported empty. */
  ghost predicate FindEmpty<T>(s: Ring<T>, r: Ring<T>) {
    && s.consumer.SawTail? && s.consumer.h == s.consumer.t
    && r == s.(consumer := Waiting)
  }

  /** The item is returned; a null entry would make the assertion of line 827 fail. */
  ghost predicate StoreHead<T>(s: Ring<T>, r: Ring<T>) {
    && s.consumer.LoadedSlot? && s.consumer.v.Some?
    && r == s.(head := NextIndex(s.cap, s.consumer.h), consumer := Waiting, popped := s.popped + [s.consumer.v.value])
  }

  datatype Event<T> =
    | LoadHead(x: T) | LoadTail | StoreSlot | GiveUp | StoreTail
    | ReadHead | ReadTail | ReadSlot | FindEmpty | StoreHead

  ghost predicate Step<T(!new)>(s: Ring<T>, r: Ring<T>, e: Event<T>) {
    match e
    case LoadHead(x) => LoadHead(s, r, x)
    case LoadTail => LoadTail(s, r)
    case StoreSlot => StoreSlot(s, r)
    case GiveUp => GiveUp(s, r)
    case StoreTail => StoreTail(s, r)
    case ReadHead => ReadHead(s, r)
    case ReadTail => ReadTail(s, r)
    case ReadSlot => ReadSlot(s, r)
    case FindEmpty => FindEmpty(s, r)
    case StoreHead => StoreHead(s, r)
  }

  // ---- the invariant

  /** The slot of item number `n`. */
  function Place(n: nat, cap: nat): (i: nat)
    ensures i <= cap
  {
    if n == 0 then 0 else NextIndex(cap, Place(n - 1, cap))
  }

  lemma {:induction false} PlaceAhead(n: nat, d: nat, cap: nat)
    requires d <= cap + 1
    ensures Place(n + d, cap) == if Place(n, cap) + d <= cap then Place(n, cap) + d else Place(n, cap) + d - (cap + 1)
  {
    if d > 0 {
      PlaceAhead(n, d - 1, cap);
    }
  }

  /** Items in the queue, in order. */
  ghost function Queue<T>(s: Ring<T>): seq<T>
    requires |s.popped| <= |s.pushed|
  {
    s.pushed[|s.popped|..]
  }

  ghost predicate InSlot<T>(s: Ring<T>, n: nat, x: T) {
    Place(n, s.cap) < |s.slots| && s.slots[Place(n, s.cap)] == Some(x)
  }

  ghost predicate ProducerInv<T>(s: Ring<T>) {
    && (s.producer != Idle ==> s.takenSeen <= |s.popped| && |s.pushed| <= s.takenSeen + s.cap)
    && match s.producer
       case Idle => true
       case LoadedHead(x, h) => h == Place(s.takenSeen, s.cap)
       case LoadedTail(x, h, t) => h == Place(s.takenSeen, s.cap) && t == s.tail
       case StoredSlot(x, t) => t == s.tail && |s.pushed| < s.takenSeen + s.cap && InSlot(s, |s.pushed|, x)
  }

  ghost predicate ConsumerInv<T>(s: Ring<T>) {
    match s.consumer
    case Waiting => true
    case SawHead(h) => h == s.head
    case SawTail(h, t) => h == s.head && t == Place(s.publishedSeen, s.cap) &&
      |s.popped| <= s.publishedSeen <= |s.pushed|
    case LoadedSlot(h, v) => h == s.head && |s.popped| < |s.pushed| && v == Some(s.pushed[|s.popped|])
  }

  ghost predicate Inv<T(!new)>(s: Ring<T>) {
    && |s.slots| == s.cap + 1
    && s.popped <= s.pushed && |s.pushed| <= |s.popped| + s.cap
    && s.head == Place(|s.popped|, s.cap) && s.tail == Place(|s.pushed|, s.cap)
    && (forall n :: |s.popped| <= n < |s.pushed| ==> InSlot(s, n, s.pushed[n]))
    && ProducerInv(s) && ConsumerInv(s)
  }

  /** The slot written holds no waiting item. */
  lemma SlotIsFree<T(!new)>(s: Ring<T>, r: Ring<T>)
    requires Inv(s) && StoreSlot(s, r)
    ensures forall m :: |r.popped| <= m < |r.pushed| ==> InSlot(r, m, r.pushed[m])
  {
    forall m | |r.popped| <= m < |r.pushed|
      ensures InSlot(r, m, r.pushed[m])
    {
      assert InSlot(s, m, s.pushed[m]);
      PlaceAhead(m, |s.pushed| - m, s.cap);
    }
  }

  lemma StoreSlotKeepsInv<T(!new)>(s: Ring<T>, r: Ring<T>)
    requires Inv(s) && StoreSlot(s, r)
    ensures Inv(r)
  {
    SlotIsFree(s, r);
    PlaceAhead(s.takenSeen, |s.pushed| + 1 - s.takenSeen, s.cap);
    hide InSlot;
    assert InSlot(r, |r.pushed|, r.producer.x);
  }

  lemma StoreTailKeepsInv<T(!new)>(s: Ring<T>, r: Ring<T>)
    requires Inv(s) && StoreTail(s, r)
    ensures Inv(r)
  {
    forall m | |r.popped| <= m < |r.pushed|
      ensures InSlot(r, m, r.pushed[m])
    {
      if m < |s.pushed| {
        assert InSlot(s, m, s.pushed[m]);
      }
    }
  }

  lemma ReadSlotKeepsInv<T(!new)>(s: Ring<T>, r: Ring<T>)
    requires Inv(s) && ReadSlot(s, r)
    ensures Inv(r) && r.consumer.v == Some(s.pushed[|s.popped|])
  {
    assert s.publishedSeen != |s.popped|;
    assert InSlot(s, |s.popped|, s.pushed[|s.popped|]);
    SameSlots(s, r);
  }

  lemma StoreHeadKeepsInv<T(!new)>(s: Ring<T>, r: Ring<T>)
    requires Inv(s) && StoreHead(s, r)
    ensures Inv(r)
  {
    forall m | |r.popped| <= m < |r.pushed|
      ensures InSlot(r, m, r.pushed[m])
    {
      assert InSlot(s, m, s.pushed[m]);
    }
  }

  lemma SameSlots<T(!new)>(s: Ring<T>, r: Ring<T>)
    requires Inv(s) && r.slots == s.slots && r.cap == s.cap && r.pushed == s.pushed && r.popped == s.popped
    ensures forall n :: |r.popped| <= n < |r.pushed| ==> InSlot(r, n, r.pushed[n])
  {
    forall n | |r.popped| <= n < |r.pushed|
      ensures InSlot(r, n, r.pushed[n])
    {
      assert InSlot(s, n, s.pushed[n]);
    }
  }

  lemma StepKeepsInv<T(!new)>(s: Ring<T>, r: Ring<T>, e: Event<T>)
    requires Inv(s) && Step(s, r, e)
    ensures Inv(r)
  {
    match e
    case StoreSlot => StoreSlotKeepsInv(s, r);
    case StoreTail => StoreTailKeepsInv(s, r);
    case ReadSlot => ReadSlotKeepsInv(s, r);
    case StoreHead => StoreHeadKeepsInv(s, r);
    case _ => SameSlots(s, r);
  }

  // ---- what the machine does, as operations of a bounded queue

  /** One step of a queue of at most `cap` items: an item is added behind the others, the oldest
      one is taken, or nothing happens. */
  ghost predicate QueueStep<T>(q: seq<T>, p: seq<T>, cap: nat, e: Event<T>, added: seq<T>, taken: seq<T>) {
    match e
    case StoreTail => |q| < cap && |added| == 1 && taken == [] && p == q + added
    case StoreHead => q != [] && added == [] && taken == [q[0]] && p == q[1..]
    case _ => p == q && added == [] && taken == []
  }

  /** Every step of the two threads is a step of the bounded queue: publishing adds one item,
      returning takes the oldest, no other step changes the queue. */
  lemma Refines<T(!new)>(s: Ring<T>, r: Ring<T>, e: Event<T>)
    requires Inv(s) && Step(s, r, e)
    ensures Inv(r) && |s.pushed| <= |r.pushed| && |s.popped| <= |r.popped|
    ensures QueueStep(Queue(s), Queue(r), s.cap, e, r.pushed[|s.pushed|..], r.popped[|s.popped|..])
  {
    StepKeepsInv(s, r, e);
    match e
    case StoreTail =>
      assert Queue(r) == Queue(s) + [s.producer.x];
      assert r.pushed[|s.pushed|..] == [s.producer.x];
    case StoreHead =>
      assert r.popped[|s.popped|..] == [Queue(s)[0]];
      assert Queue(r) == Queue(s)[1..];
    case _ =>
  }

  /** The producer reports a full queue exactly if the queue held `cap` items when it loaded `_head`,
      and stores its item otherwise. */
  lemma FullIffFull<T(!new)>(s: Ring<T>)
    requires Inv(s) && s.producer.LoadedTail?
    ensures (exists r :: GiveUp(s, r)) <==> |s.pushed| - s.takenSeen == s.cap
    ensures (exists r :: StoreSlot(s, r)) <==> |s.pushed| - s.takenSeen < s.cap
  {
    PlaceAhead(s.takenSeen, |s.pushed| + 1 - s.takenSeen, s.cap);
    assert GiveUp(s, s.(producer := Idle)) <==> |s.pushed| - s.takenSeen == s.cap;
    var t := s.producer.t;
    var r := s.(slots := s.slots[t := Some(s.producer.x)], producer := StoredSlot(s.producer.x, t));
    assert StoreSlot(s, r) <==> |s.pushed| - s.takenSeen < s.cap;
  }

  /** The consumer reports an empty queue exactly if nothing was waiting when it loaded `_tail`, and
      reads its slot otherwise. */
  lemma EmptyIffEmpty<T(!new)>(s: Ring<T>)
    requires Inv(s) && s.consumer.SawTail?
    ensures (exists r :: FindEmpty(s, r)) <==> s.publishedSeen == |s.popped|
    ensures (exists r :: ReadSlot(s, r)) <==> s.publishedSeen > |s.popped|
  {
    PlaceAhead(|s.popped|, s.publishedSeen - |s.popped|, s.cap);
    assert FindEmpty(s, s.(consumer := Waiting)) <==> s.publishedSeen == |s.popped|;
    var r := s.(consumer := LoadedSlot(s.consumer.h, s.slots[s.consumer.h]));
    assert ReadSlot(s, r) <==> s.publishedSeen > |s.popped|;
  }

  /** Both refusals are justified by a moment within the call, and only then given; and what is taken
      out is never a null entry, so that the assertion behind line 827 holds. */
  lemma AnswersAreJustified<T(!new)>(s: Ring<T>)
    requires Inv(s)
    ensures s.producer.LoadedTail? ==>
      ((exists r :: GiveUp(s, r)) <==> |s.pushed| - s.takenSeen == s.cap) &&
      ((exists r :: StoreSlot(s, r)) <==> |s.pushed| - s.takenSeen < s.cap)
    ensures s.consumer.SawTail? ==>
      ((exists r :: FindEmpty(s, r)) <==> s.publishedSeen == |s.popped|) &&
      ((exists r :: ReadSlot(s, r)) <==> s.publishedSeen > |s.popped|)
    ensures s.consumer.LoadedSlot? ==> s.consumer.v.Some?
  {
    if s.producer.LoadedTail? {
      FullIffFull(s);
    }
    if s.consumer.SawTail? {
      EmptyIffEmpty(s);
    }
  }

  /** An event of StreamEnqueue, as opposed to one of StreamDequeue. */
  predicate Enqueues<T>(e: Event<T>) {
    e.LoadHead? || e.LoadTail? || e.StoreSlot? || e.GiveUp? || e.StoreTail?
  }

  /** Neither thread ever waits for the other: wherever the two are, each of them has a next step. */
  lemma NobodyWaits<T(!new)>(s: Ring<T>, x: T)
    requires Inv(s)
    ensures exists r, e :: Step(s, r, e) && Enqueues(e)
    ensures exists r, e :: Step(s, r, e) && !Enqueues(e)
  {
    ProducerGoesOn(s, x);
    ConsumerGoesOn(s);
  }

  lemma ProducerGoesOn<T(!new)>(s: Ring<T>, x: T)
    requires Inv(s)
    ensures exists r, e :: Step(s, r, e) && Enqueues(e)
  {
    match s.producer
    case Idle =>
      assert Step(s, s.(producer := LoadedHead(x, s.head), takenSeen := |s.popped|), Event.LoadHead(x));
    case LoadedHead(y, h) => assert Step(s, s.(producer := LoadedTail(y, h, s.tail)), Event.LoadTail);
    case LoadedTail(y, h, t) =>
      FullIffFull(s);
      if |s.pushed| - s.takenSeen < s.cap {
        var r :| StoreSlot(s, r);
        assert Step(s, r, Event.StoreSlot);
      } else {
        var r :| GiveUp(s, r);
        assert Step(s, r, Event.GiveUp);
      }
    case StoredSlot(y, t) =>
      var r := s.(tail := NextIndex(s.cap, t), producer := Idle, pushed := s.pushed + [y]);
      assert Step(s, r, Event.StoreTail);
  }

  lemma ConsumerGoesOn<T(!new)>(s: Ring<T>)
    requires Inv(s)
    ensures exists r, e :: Step(s, r, e) && !Enqueues(e)
  {
    match s.consumer
    case Waiting => assert Step(s, s.(consumer := SawHead(s.head)), Event.ReadHead);
    case SawHead(h) =>
      assert Step(s, s.(consumer := SawTail(h, s.tail), publishedSeen := |s.pushed|), Event.ReadTail);
    case SawTail(h, t) =>
      EmptyIffEmpty(s);
      if s.publishedSeen > |s.popped| {
        var r :| ReadSlot(s, r);
        assert Step(s, r, Event.ReadSlot);
      } else {
        var r :| FindEmpty(s, r);
        assert Step(s, r, Event.FindEmpty);
      }
    case LoadedSlot(h, v) =>
      var r := s.(head := NextIndex(s.cap, h), consumer := Waiting, popped := s.popped + [v.value]);
      assert Step(s, r, Event.StoreHead);
  }

  /** Both calls get through by themselves. With fewer than `cap` items waiting the four steps of an
      enqueue add the item behind the others ... */
  lemma EnqueueAlone<T(!new)>(s: Ring<T>, x: T) returns (a: Ring<T>, b: Ring<T>, c: Ring<T>, r: Ring<T>)
    requires Inv(s) && s.producer == Idle && |Queue(s)| < s.cap
    ensures LoadHead(s, a, x) && LoadTail(a, b) && StoreSlot(b, c) && StoreTail(c, r)
    ensures Inv(r) && Queue(r) == Queue(s) + [x] && r.producer == Idle && r.consumer == s.consumer
  {
    a := s.(producer := LoadedHead(x, s.head), takenSeen := |s.popped|);
    StepKeepsInv(s, a, Event.LoadHead(x));
    b := a.(producer := LoadedTail(x, s.head, s.tail));
    StepKeepsInv(a, b, Event.LoadTail);
    FullIffFull(b);
    c :| StoreSlot(b, c);
    StepKeepsInv(b, c, Event.StoreSlot);
    r := c.(tail := NextIndex(c.cap, s.tail), producer := Idle, pushed := c.pushed + [x]);
    StepKeepsInv(c, r, Event.StoreTail);
  }

  /** ... and with an item waiting those of a dequeue return the oldest. */
  lemma DequeueAlone<T(!new)>(s: Ring<T>) returns (a: Ring<T>, b: Ring<T>, c: Ring<T>, r: Ring<T>)
    requires Inv(s) && s.consumer == Waiting && Queue(s) != []
    ensures ReadHead(s, a) && ReadTail(a, b) && ReadSlot(b, c) && StoreHead(c, r)
    ensures Inv(r) && r.popped == s.popped + [Queue(s)[0]] && Queue(r) == Queue(s)[1..]
    ensures r.consumer == Waiting && r.producer == s.producer
  {
    a := s.(consumer := SawHead(s.head));
    StepKeepsInv(s, a, Event.ReadHead);
    b := a.(consumer := SawTail(s.head, s.tail), publishedSeen := |s.pushed|);
    StepKeepsInv(a, b, Event.ReadTail);
    EmptyIffEmpty(b);
    c :| ReadSlot(b, c);
    ReadSlotKeepsInv(b, c);
    r := c.(head := NextIndex(c.cap, s.head), consumer := Waiting, popped := c.popped + [c.consumer.v.value]);
    StepKeepsInv(c, r, Event.StoreHead);
  }

  ghost predicate Runs<T(!new)>(run: seq<Ring<T>>, events: seq<Event<T>>) {
    |run| == |events| + 1 && Init(run[0]) && forall i :: 0 <= i < |events| ==> Step(run[i], run[i + 1], events[i])
  }

  lemma {:induction false} InvOnRuns<T(!new)>(run: seq<Ring<T>>, events: seq<Event<T>>, k: nat)
    requires Runs(run, events) && k < |run|
    ensures Inv(run[k]) && run[k].cap == run[0].cap
  {
    if k > 0 {
      InvOnRuns(run, events, k - 1);
      StepKeepsInv(run[k - 1], run[k], events[k - 1]);
    }
  }

  /** On every run, under every interleaving: what has been taken is the beginning of what was
      put in, in the same order and without loss or repetition, and no more than `cap` items
      wait; earlier results stay as they are. */
  lemma {:induction false} RunsAreFifo<T(!new)>(run: seq<Ring<T>>, events: seq<Event<T>>, j: nat, k: nat)
    requires Runs(run, events) && j <= k < |run|
    ensures run[k].popped <= run[k].pushed && |run[k].pushed| - |run[k].popped| <= run[0].cap
    ensures run[j].popped <= run[k].popped && run[j].pushed <= run[k].pushed
    decreases k - j
  {
    hide Inv, Step;
    FifoAt(run, events, k);
    if j < k {
      FifoAt(run, events, j);
      StepExtends(run[j], run[j + 1], events[j]);
      RunsAreFifo(run, events, j + 1, k);
    }
  }

  lemma FifoAt<T(!new)>(run: seq<Ring<T>>, events: seq<Event<T>>, k: nat)
    requires Runs(run, events) && k < |run|
    ensures Inv(run[k]) && run[k].popped <= run[k].pushed && |run[k].pushed| - |run[k].popped| <= run[0].cap
  {
    InvOnRuns(run, events, k);
  }

  lemma StepExtends<T(!new)>(s: Ring<T>, r: Ring<T>, e: Event<T>)
    requires Inv(s) && Step(s, r, e)
    ensures s.popped <= r.popped && s.pushed <= r.pushed
  {}
}
