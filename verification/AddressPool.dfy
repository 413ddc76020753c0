/** The pools of local addresses of src/user_addr.c: an address is put into the pool of the core
    that receives the packets of its flow, and fetched under the same condition. */
module AddressPools {
  import opened RssHash

  const MIN_PORT := 1025
  const MAX_PORT := 65535
  const INADDR_ANY: bv32 := 0
  const INPORT_ANY: bv16 := 0

  datatype Addr = Addr(ip: bv32, port: bv16)

  /** The flow from `a` to the remote endpoint is handled by `core`. */
  ghost predicate Suits(a: Addr, core: nat, numQueues: nat, daddr: bv32, dport: bv16)
    requires 0 < numQueues
  {
    CoreOf(a.ip, daddr, a.port, dport, numQueues, true) == core
  }

  ghost predicate AllSuit(pool: seq<Addr>, core: nat, numQueues: nat, daddr: bv32, dport: bv16)
    requires 0 < numQueues
  {
    forall a :: a in pool ==> Suits(a, core, numQueues, daddr, dport)
  }

  /** The entry is one the caller asked for; zero stands for any address or port. */
  predicate Wanted(a: Addr, ip: bv32, port: bv16) {
    (ip != INADDR_ANY ==> a.ip == ip) && (port != INPORT_ANY ==> a.port == port)
  }

  class AddressPool {
    var freeList: seq<Addr>
    var usedList: seq<Addr>
    var numFree: nat
    var numUsed: nat
    /** How many entries have been allocated. */
    const numEntry: nat

    ghost predicate Valid()
      reads this
    {
      numFree == |freeList| && numUsed == |usedList| && numFree + numUsed <= numEntry
    }

    constructor (numEntry: nat)
      ensures Valid() && freeList == usedList == [] && this.numEntry == numEntry
    {
      this.numEntry, freeList, usedList, numFree, numUsed := numEntry, [], [], 0, 0;
    }

    /** FetchAddress: the first free entry that is wanted and suits the core moves to the used
        list. The result is false if there is none. */
    method FetchAddress(cache: HashCache, core: nat, numQueues: nat, daddr: bv32, dport: bv16, ip: bv32, port: bv16)
      returns (found: bool, a: Addr, ghost k: nat)
      requires Valid() && cache.Valid() && 0 < numQueues
      modifies this, cache, cache.keyCache
      ensures Valid() && cache.Valid()
      ensures found <==> exists b ::
        b in old(freeList) && Wanted(b, ip, port) && Suits(b, core, numQueues, daddr, dport)
      ensures found ==>
        k < |old(freeList)| && a == old(freeList)[k] && Wanted(a, ip, port) && Suits(a, core, numQueues, daddr, dport)
      ensures found ==> forall i :: 0 <= i < k ==>
        !(Wanted(old(freeList)[i], ip, port) && Suits(old(freeList)[i], core, numQueues, daddr, dport))
      ensures found ==> freeList == old(freeList)[..k] + old(freeList)[k + 1..] && usedList == old(usedList) + [a]
      ensures !found ==> freeList == old(freeList) && usedList == old(usedList)
      // in a pool made for this core and endpoint the test of the core never fails
      ensures AllSuit(old(freeList), core, numQueues, daddr, dport) ==>
        AllSuit(freeList, core, numQueues, daddr, dport) &&
          (found <==> exists b :: b in old(freeList) && Wanted(b, ip, port))
    {
      hide CoreOf;
      var n := 0;
      found, a, k := false, Addr(0, 0), 0;
      while n < |freeList|
        invariant 0 <= n <= |freeList| && Valid() && cache.Valid()
        invariant freeList == old(freeList) && usedList == old(usedList)
        invariant forall i :: 0 <= i < n ==>
          !(Wanted(freeList[i], ip, port) && Suits(freeList[i], core, numQueues, daddr, dport))
      {
        var walk := freeList[n];
        if Wanted(walk, ip, port) {
          var rssCore := cache.GetRSSCPUCore(walk.ip, daddr, walk.port, dport, numQueues, true);
          if core == rssCore {
            found, a, k := true, walk, n;
            freeList := freeList[..n] + freeList[n + 1..];
            usedList := usedList + [walk];
            numFree, numUsed := numFree - 1, numUsed + 1;
            return;
          }
        }
        n := n + 1;
      }
    }
  }

  /** Lines 134-155 visit these pairs, in this order. */
  ghost predicate Covers(pool: seq<Addr>, base: bv32, i: nat, j: nat, core: nat, numQueues: nat, daddr: bv32,
      dport: bv16)
    requires 0 < numQueues && i < 0x1_0000_0000 && j <= MAX_PORT
  {
    && AllSuit(pool, core, numQueues, daddr, dport)
    && (forall x, y ::
          0 <= x <= i && MIN_PORT <= y < MAX_PORT && (x < i || y < j) &&
          Suits(Candidate(base, x, y), core, numQueues, daddr, dport) ==>
            Candidate(base, x, y) in pool)
  }

  function Candidate(base: bv32, i: nat, j: nat): Addr
    requires i < 0x1_0000_0000 && j <= MAX_PORT
  {
    Addr(base + (i as bv32), j as bv16)
  }

  /** CreateAddressPoolPerCore: all addresses of the range, as far as they fit, whose flows to the
      remote endpoint go to this core. The hash is asked with the endpoints the other way round
      than FetchAddress asks it. */
  method CreatePerCore(cache: HashCache, core: nat, numQueues: nat, base: bv32, numAddr: nat, daddr: bv32, dport: bv16)
    returns (ap: AddressPool)
    requires cache.Valid() && 0 < numQueues && 0 < numAddr && numAddr * (MAX_PORT - MIN_PORT) < 0x8000_0000
    modifies cache, cache.keyCache
    ensures ap.Valid() && cache.Valid() && fresh(ap) && ap.usedList == []
    ensures AllSuit(ap.freeList, core, numQueues, daddr, dport)
    ensures |ap.freeList| < ap.numEntry ==>
      Covers(ap.freeList, base, numAddr - 1, MAX_PORT, core, numQueues, daddr, dport)
  {
    hide CoreOf;
    ap := new AddressPool(numAddr * (MAX_PORT - MIN_PORT) / numQueues);
    var i := 0;
    while i < numAddr
      invariant 0 <= i <= numAddr && ap.Valid() && cache.Valid() && fresh(ap) && ap.usedList == []
      invariant Covers(ap.freeList, base, 0, MIN_PORT, core, numQueues, daddr, dport)
      invariant |ap.freeList| < ap.numEntry ==> Covers(ap.freeList, base, i, MIN_PORT, core, numQueues, daddr, dport)
    {
      CreateRow(cache, ap, core, numQueues, base, i, daddr, dport);
      i := i + 1;
    }
  }

  method CreateRow(cache: HashCache, ap: AddressPool, core: nat, numQueues: nat, base: bv32, i: nat, daddr: bv32,
      dport: bv16)
    requires cache.Valid() && ap.Valid() && ap.usedList == [] && 0 < numQueues && i < 0x1_0000
    requires Covers(ap.freeList, base, 0, MIN_PORT, core, numQueues, daddr, dport)
    requires |ap.freeList| < ap.numEntry ==> Covers(ap.freeList, base, i, MIN_PORT, core, numQueues, daddr, dport)
    modifies cache, cache.keyCache, ap
    ensures ap.Valid() && cache.Valid() && ap.usedList == []
    ensures Covers(ap.freeList, base, 0, MIN_PORT, core, numQueues, daddr, dport)
    ensures |ap.freeList| < ap.numEntry ==> Covers(ap.freeList, base, i + 1, MIN_PORT, core, numQueues, daddr, dport)
    ensures |ap.freeList| < ap.numEntry ==> Covers(ap.freeList, base, i, MAX_PORT, core, numQueues, daddr, dport)
  {
    hide CoreOf, Suits, Candidate, Covers;
    var j := MIN_PORT;
    while j < MAX_PORT
      invariant MIN_PORT <= j <= MAX_PORT && ap.Valid() && cache.Valid() && ap.usedList == []
      invariant Covers(ap.freeList, base, 0, MIN_PORT, core, numQueues, daddr, dport)
      invariant |ap.freeList| < ap.numEntry ==> Covers(ap.freeList, base, i, j, core, numQueues, daddr, dport)
    {
      if ap.numFree >= ap.numEntry {
        break;
      }
      var e := Candidate(base, i, j);
      var rssCore := cache.GetRSSCPUCore(daddr, e.ip, dport, e.port, numQueues, true);
      SuitsEitherWay(e, core, numQueues, daddr, dport);
      CoversNext(ap.freeList, base, i, j, core, numQueues, daddr, dport);
      if rssCore == core {
        ap.freeList := ap.freeList + [e];
        ap.numFree := ap.numFree + 1;
      }
      j := j + 1;
    }
    if j == MAX_PORT {
      CoversRow(ap.freeList, base, i, core, numQueues, daddr, dport);
    }
  }

  lemma SuitsEitherWay(a: Addr, core: nat, numQueues: nat, daddr: bv32, dport: bv16)
    requires 0 < numQueues
    ensures Suits(a, core, numQueues, daddr, dport) <==> CoreOf(daddr, a.ip, dport, a.port, numQueues, true) == core
  {
    hide CoreOf;
    CoreIsSymmetric(daddr, a.ip, dport, a.port, numQueues, true);
  }

  lemma CoversNext(pool: seq<Addr>, base: bv32, i: nat, j: nat, core: nat, numQueues: nat, daddr: bv32, dport: bv16)
    requires 0 < numQueues && i < 0x1_0000_0000 && MIN_PORT <= j < MAX_PORT
    requires Covers(pool, base, 0, MIN_PORT, core, numQueues, daddr, dport)
    ensures var e := Candidate(base, i, j);
      var next := if Suits(e, core, numQueues, daddr, dport) then pool + [e] else pool;
      && Covers(next, base, 0, MIN_PORT, core, numQueues, daddr, dport)
      && (Covers(pool, base, i, j, core, numQueues, daddr, dport) ==>
        Covers(next, base, i, j + 1, core, numQueues, daddr, dport))
  {
    hide Suits, Candidate;
  }

  lemma CoversRow(pool: seq<Addr>, base: bv32, i: nat, core: nat, numQueues: nat, daddr: bv32, dport: bv16)
    requires 0 < numQueues && i + 1 < 0x1_0000_0000
    ensures Covers(pool, base, i, MAX_PORT, core, numQueues, daddr, dport) ==>
      Covers(pool, base, i + 1, MIN_PORT, core, numQueues, daddr, dport)
  {
    hide Suits, Candidate;
  }
}
