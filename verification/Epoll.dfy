/** The event poll object of src/user_epoll_rb.c: the interest set in a red-black tree, and the
    list of the items that are ready. */
module Epoll {
  import opened Common
  import opened RbSpec
  import opened RbTree

  const EPOLLERR: bv32 := 0x0008
  const EPOLLHUP: bv32 := 0x0010

  /** The ready list holds exactly the items marked ready, each once. */
  ghost predicate ListsReady(list: seq<Epitem>, items: set<Epitem>)
    reads items`rdy
  {
    && NoRepeats(list)
    && (forall e :: e in list ==> e in items)
    && (forall e :: e in items ==> (e.rdy <==> e in list))
  }

  class EventPoll {
    const rbr: RbHead
    var rbcnt: int
    var rdlist: seq<Epitem>
    var rdnum: int

    /** The registered items. */
    ghost var items: set<Epitem>

    ghost predicate Valid()
      reads this, rbr, items`left, items`right, items`parent, items`red, items`rdy
    {
      && items == Items(rbr.tree) && rbr.Valid() && rbcnt == |items|
      && ListsReady(rdlist, items) && rdnum == |rdlist|
    }

    constructor ()
      ensures Valid() && fresh(rbr) && items == {} && rdlist == []
    {
      rbr := new RbHead();
      rbcnt, rdlist, rdnum, items := 0, [], 0, {};
    }

    /** epoll_ctl, EPOLL_CTL_ADD: -1 if the socket is registered already. */
    method CtlAdd(sockid: int, events: bv32) returns (r: int, ghost item: Epitem?)
      requires Valid()
      modifies this`rbcnt, this`items, rbr, items`left, items`right, items`parent, items`red
      ensures Valid() && r == if item == null then -1 else 0
      ensures item == null ==> items == old(items) && exists e :: e in items && e.sockfd == sockid
      ensures item != null ==> fresh(item) && item.sockfd == sockid && item.events == events && !item.rdy
      ensures item != null ==> items == old(items) + {item} && forall e :: e in old(items) ==> e.sockfd != sockid
    {
      hide RbHead.Valid, Items;
      var epi, steps := rbr.Find(sockid);
      if epi != null {
        return -1, null;
      }
      var e := new Epitem(sockid, events);
      var dup := rbr.Insert(e);
      assert dup == null;
      assert |items + {e}| == |items| + 1;
      rbcnt := rbcnt + 1;
      items := items + {e};
      return 0, e;
    }

    /** epoll_ctl, EPOLL_CTL_DEL: -1 if the socket is not registered. The item leaves the tree and
        is freed, but it is not taken off the ready list: the object stays consistent exactly if
        the item was not ready. */
    method CtlDel(sockid: int) returns (r: int, ghost item: Epitem?)
      requires Valid()
      modifies this`rbcnt, this`items, rbr, items`left, items`right, items`parent, items`red
      ensures r == if item == null then -1 else 0
      ensures item == null ==> Valid() && items == old(items) && forall e :: e in items ==> e.sockfd != sockid
      ensures item != null ==> item in old(items) && item.sockfd == sockid && items == old(items) - {item}
      ensures item != null ==> (Valid() <==> !item.rdy)
      ensures rbr.Valid() && rbcnt == |items|
    {
      hide RbHead.Valid, Items;
      var epi, steps := rbr.Find(sockid);
      if epi == null {
        return -1, null;
      }
      var gone := rbr.Remove(epi);
      assert |items - {epi}| == |items| - 1;
      rbcnt := rbcnt - 1;
      items := items - {epi};
      return 0, epi;
    }

    /** epoll_ctl, EPOLL_CTL_MOD: the events are replaced; errors and hang-ups are always reported. */
    method CtlMod(sockid: int, events: bv32) returns (r: int, ghost item: Epitem?)
      requires Valid()
      modifies items`events
      ensures Valid() && r == if item == null then -1 else 0
      ensures item == null ==> forall e :: e in items ==> e.sockfd != sockid
      ensures item != null ==> item in items && item.sockfd == sockid && item.events == events | EPOLLERR | EPOLLHUP
      ensures forall e :: e in items && e != item ==> e.events == old(e.events)
    {
      hide RbHead.Valid, Items;
      var epi, steps := rbr.Find(sockid);
      if epi == null {
        return -1, null;
      }
      epi.events := events;
      epi.events := epi.events | EPOLLERR | EPOLLHUP;
      return 0, epi;
    }

    /** epoll_event_callback. A first signal puts the item at the front of the ready list; further
        ones only add to its events. False if the source fails its assertion because the socket
        is not registered. */
    method EventCallback(sockid: int, event: bv32) returns (ok: bool, again: bool, ghost item: Epitem?)
      requires Valid()
      modifies this`rdlist, this`rdnum, items`rdy, items`events
      ensures Valid() && (ok <==> item != null)
      ensures item == null ==> rdlist == old(rdlist) && forall e :: e in items ==> e.sockfd != sockid
      ensures item != null ==> item in items && item.sockfd == sockid && item.rdy && again == old(item.rdy)
      ensures item != null ==> rdlist == if again then old(rdlist) else [item] + old(rdlist)
      ensures item != null ==> item.events == if again then old(item.events) | event else old(item.events)
      ensures forall e :: e in items && e != item ==> e.events == old(e.events) && e.rdy == old(e.rdy)
    {
      hide RbHead.Valid, Items;
      var epi, steps := rbr.Find(sockid);
      if epi == null {
        return false, false, null;
      }
      if epi.rdy {
        epi.events := epi.events | event;
        return true, true, epi;
      }
      assert epi !in rdlist;
      epi.rdy := true;
      rdlist := [epi] + rdlist;
      rdnum := rdnum + 1;
      return true, false, epi;
    }

    /** The collecting loop of epoll_wait (lines 408-433): the first `min(rdnum, maxevents)` items
        of the ready list are reported, and are no longer ready. */
    method Collect(maxevents: int) returns (cnt: int, events: seq<bv32>, ghost taken: seq<Epitem>)
      requires Valid() && 0 < maxevents
      modifies this`rdlist, this`rdnum, items`rdy
      ensures Valid() && cnt == |events| == |taken| && cnt == if old(rdnum) > maxevents then maxevents else old(rdnum)
      ensures old(rdlist) == taken + rdlist && NoRepeats(taken)
      ensures forall i :: 0 <= i < cnt ==> taken[i] in items && !taken[i].rdy && events[i] == taken[i].events
    {
      hide RbHead.Valid, Items, ListsReady, NoRepeats;
      ReadyOnce();
      ghost var list := rdlist;
      cnt, events, taken := 0, [], [];
      var num := if rdnum > maxevents then maxevents else rdnum;
      while num != 0 && rdlist != []
        invariant Valid() && 0 <= num <= rdnum && cnt == |events| == |taken|
        invariant cnt + num == if old(rdnum) > maxevents then maxevents else old(rdnum)
        invariant list == taken + rdlist && NoRepeats(list)
        invariant forall i :: 0 <= i < cnt ==> taken[i] in items && !taken[i].rdy && events[i] == taken[i].events
        decreases num
      {
        var epi := TakeFirst();
        OneMore(taken, epi, rdlist);
        events := events + [epi.events];
        taken := taken + [epi];
        num := num - 1;
        cnt := cnt + 1;
      }
      PrefixOnce(taken, rdlist);
    }

    lemma ReadyOnce()
      requires Valid()
      ensures NoRepeats(rdlist)
    {}

    /** Lines 418-431. */
    method TakeFirst() returns (epi: Epitem)
      requires Valid() && rdlist != []
      modifies this`rdlist, this`rdnum, items`rdy
      ensures Valid() && old(rdlist) == [epi] + rdlist && epi in items && !epi.rdy
      ensures forall e :: e in items && e != epi ==> e.rdy == old(e.rdy)
    {
      hide RbHead.Valid, Items;
      epi := rdlist[0];
      assert epi in rdlist && epi !in rdlist[1..];
      assert rdlist == [epi] + rdlist[1..];
      rdlist := rdlist[1..];
      epi.rdy := false;
      rdnum := rdnum - 1;
    }

    /** No two registered items have the same socket, so the sockets reported by one wait are
        distinct too. */
    lemma SocketsDiffer(x: Epitem, y: Epitem)
      requires Valid() && x in items && y in items && x.sockfd == y.sockfd
      ensures x == y
    {
      InOrderItem(rbr.tree, x);
      InOrderItem(rbr.tree, y);
      var s := InOrder(rbr.tree);
      var i :| 0 <= i < |s| && s[i] == x;
      var j :| 0 <= j < |s| && s[j] == y;
      assert i == j;
    }

    /** epoll_destroy: everything is unlinked and freed. */
    method Destroy()
      requires Valid()
      modifies this`rdlist, this`items, rbr, items`left, items`right, items`parent, items`red
      ensures rdlist == [] && Items(rbr.tree) == items == {}
    {
      hide RbHead.Valid, Items, ListsReady;
      rdlist := [];
      ghost var all := items;
      var epi := rbr.MinMax(-1);
      FirstIsItem();
      while epi != null
        invariant rbr.Valid() && items == Items(rbr.tree) && items <= all && rdlist == []
        invariant epi == null <==> items == {}
        invariant epi != null ==> epi in items
        decreases |items|
        modifies this`items, rbr, all`left, all`right, all`parent, all`red
      {
        assert |items - {epi}| < |items|;
        var gone := rbr.Remove(epi);
        items := items - {epi};
        epi := rbr.MinMax(-1);
        FirstIsItem();
      }
    }

    lemma FirstIsItem()
      ensures InOrder(rbr.tree) == [] <==> Items(rbr.tree) == {}
      ensures InOrder(rbr.tree) != [] ==> InOrder(rbr.tree)[0] in Items(rbr.tree)
    {
      if InOrder(rbr.tree) != [] {
        InOrderItem(rbr.tree, InOrder(rbr.tree)[0]);
      }
    }
  }
}
