/** The reassembly buffer of src/user_buffer.c: a byte window over the peer's stream and a
    linked list of the fragments received so far, both addressed by wrapping 32-bit numbers. */
module Reassembly {
  import opened Common
  import opened SeqArith
  import opened Spans

  class Fragment {
    var seqNum: u32
    var len: nat
    var next: Fragment?

    constructor (seqNum: u32, len: nat)
      ensures this.seqNum == seqNum && this.len == len && next == null
    {
      this.seqNum, this.len, next := seqNum, len, null;
    }
  }

  predicate CanMerge(aSeq: u32, aLen: int, bSeq: u32, bLen: int) {
    var aEnd, bEnd := Wrap(aSeq + aLen + 1), Wrap(bSeq + bLen + 1);
    !(GetMinSeq(aEnd, bSeq) == aEnd || GetMinSeq(bEnd, aSeq) == bEnd)
  }

  /** The fields of one fragment, and of a list of them, as they stand. */
  datatype Cell = Cell(seqNum: u32, len: nat, next: Fragment?)

  ghost function CellOf(f: Fragment): Cell
    reads f
  {
    Cell(f.seqNum, f.len, f.next)
  }

  ghost function Cells(nodes: seq<Fragment>): (cells: seq<Cell>)
    reads nodes
    ensures |cells| == |nodes| && forall i {:trigger cells[i]} :: 0 <= i < |nodes| ==> cells[i] == CellOf(nodes[i])
  {
    seq(|nodes|, i requires 0 <= i < |nodes| reads nodes => CellOf(nodes[i]))
  }

  /** A fragment carries the number and the length of its interval. */
  ghost predicate Carries(c: Cell, s: Span, init: u32) {
    c.seqNum == Wrap(init + s.lo) && c.len == s.hi - s.lo
  }

  ghost function NodeAt(nodes: seq<Fragment>, k: nat): Fragment? {
    if k < |nodes| then nodes[k] else null
  }

  /** `nodes` is the list that starts at `first`. */
  ghost predicate Chain(first: Fragment?, nodes: seq<Fragment>, cells: seq<Cell>) {
    && |cells| == |nodes| && NoRepeats(nodes)
    && first == NodeAt(nodes, 0)
    && forall i :: 0 <= i < |nodes| ==> cells[i].next == NodeAt(nodes, i + 1)
  }

  ghost predicate Numbered(cells: seq<Cell>, spans: seq<Span>, init: u32) {
    |cells| == |spans| && forall i :: 0 <= i < |cells| ==> Carries(cells[i], spans[i], init)
  }

  /** The nodes from `j` up to `m` have been bypassed. */
  ghost predicate Spliced(first: Fragment?, nodes: seq<Fragment>, cells: seq<Cell>, j: nat, m: nat)
    requires j <= m <= |nodes| == |cells|
  {
    && NoRepeats(nodes)
    && first == NodeAt(nodes, if j > 0 then 0 else m)
    && (forall k :: 0 <= k < |nodes| && (k < j || m <= k) ==>
          cells[k].next == NodeAt(nodes, if k == j - 1 then m else k + 1))
  }

  /** Outside the part under way the fragments still carry the old intervals. */
  ghost predicate Untouched(cells: seq<Cell>, s: seq<Span>, init: u32, j: nat, i: nat)
    requires |cells| == |s|
  {
    forall k :: 0 <= k < |cells| && (k < j || i <= k) ==> Carries(cells[k], s[k], init)
  }

  lemma CellsConcat(a: seq<Fragment>, b: seq<Fragment>)
    ensures Cells(a + b) == Cells(a) + Cells(b)
  {}

  lemma CellsSplit(nodes: seq<Fragment>, i: nat)
    requires i <= |nodes|
    ensures Cells(nodes[..i]) == Cells(nodes)[..i] && Cells(nodes[i..]) == Cells(nodes)[i..]
  {}

  lemma CellsInsert(nodes: seq<Fragment>, i: nat, x: Fragment)
    requires i <= |nodes|
    ensures Cells(nodes[..i] + [x] + nodes[i..]) == Cells(nodes)[..i] + [CellOf(x)] + Cells(nodes)[i..]
  {}

  /** Bypassing part of a list leaves the list without that part. */
  lemma SplicedChain(first: Fragment?, nodes: seq<Fragment>, cells: seq<Cell>, j: nat, m: nat)
    requires j <= m < |nodes| == |cells| && Spliced(first, nodes, cells, j, m)
    ensures Chain(first, nodes[..j] + nodes[m..], cells[..j] + cells[m..])
  {
    var list, cs := nodes[..j] + nodes[m..], cells[..j] + cells[m..];
    forall k | 0 <= k < |list|
      ensures cs[k].next == NodeAt(list, k + 1)
    {
      assert cs[k] == cells[if k < j then k else k - j + m];
    }
    forall k, l | 0 <= k < l < |list|
      ensures list[k] != list[l]
    {
      assert list[k] == nodes[if k < j then k else k - j + m];
      assert list[l] == nodes[if l < j then l else l - j + m];
    }
  }

  /** A node linked in before element `i` gives the list with that node. */
  lemma HungChain(first: Fragment?, nodes: seq<Fragment>, cells: seq<Cell>, i: nat, x: Fragment, c: Cell)
    requires i <= |nodes| == |cells| && NoRepeats(nodes) && x !in nodes
    requires first == (if i > 0 then nodes[0] else x) && c.next == NodeAt(nodes, i)
    requires forall k :: 0 <= k < |nodes| ==> cells[k].next == if k == i - 1 then x else NodeAt(nodes, k + 1)
    ensures Chain(first, nodes[..i] + [x] + nodes[i..], cells[..i] + [c] + cells[i..])
  {
    var list, cs := nodes[..i] + [x] + nodes[i..], cells[..i] + [c] + cells[i..];
    forall k | 0 <= k < |list|
      ensures cs[k].next == NodeAt(list, k + 1)
    {
      assert k < i ==> cs[k] == cells[k];
      assert k > i ==> cs[k] == cells[k - 1];
    }
    forall k, l | 0 <= k < l < |list|
      ensures list[k] != list[l]
    {
      assert k != i ==> list[k] == nodes[if k < i then k else k - 1];
      assert l != i ==> list[l] == nodes[if l < i then l else l - 1];
    }
  }

  lemma NumberedSplice(cells: seq<Cell>, s: seq<Span>, init: u32, j: nat, i: nat, cur: Span)
    requires j < i <= |cells| == |s| && Untouched(cells, s, init, j, i) && Carries(cells[i - 1], cur, init)
    ensures Numbered(cells[..j] + cells[i - 1..], s[..j] + [cur] + s[i..], init)
  {
    var cs, t := cells[..j] + cells[i - 1..], s[..j] + [cur] + s[i..];
    forall k | 0 <= k < |cs|
      ensures Carries(cs[k], t[k], init)
    {
      assert k > j ==> cs[k] == cells[k - j + i - 1] && t[k] == s[k - j + i - 1];
    }
  }

  lemma UntouchedByLinks(before: seq<Cell>, after: seq<Cell>, s: seq<Span>, init: u32, j: nat, i: nat)
    requires |before| == |after| == |s| && Untouched(before, s, init, j, i)
    requires forall k :: 0 <= k < |before| ==> after[k] == before[k].(next := after[k].next)
    ensures Untouched(after, s, init, j, i)
  {}

  lemma NumberedInsert(cells: seq<Cell>, s: seq<Span>, init: u32, i: nat, c: Cell, x: Span)
    requires i <= |cells| == |s| && Untouched(cells, s, init, i, i) && Carries(c, x, init)
    ensures Numbered(cells[..i] + [c] + cells[i..], s[..i] + [x] + s[i..], init)
  {
    var cs, t := cells[..i] + [c] + cells[i..], s[..i] + [x] + s[i..];
    forall k | 0 <= k < |cs|
      ensures Carries(cs[k], t[k], init)
    {
      assert k > i ==> cs[k] == cells[k - 1] && t[k] == s[k - 1];
    }
  }

  /** The list without its first element. */
  lemma TailOfList(first: Fragment, nodes: seq<Fragment>, cells: seq<Cell>, s: seq<Span>, init: u32)
    requires Chain(first, nodes, cells) && Numbered(cells, s, init) && nodes != []
    ensures Chain(cells[0].next, nodes[1..], cells[1..]) && Numbered(cells[1..], s[1..], init)
  {
    forall i | 0 <= i < |nodes| - 1
      ensures cells[1..][i].next == NodeAt(nodes[1..], i + 1) && Carries(cells[1..][i], s[1..][i], init)
    {
      assert cells[1..][i] == cells[i + 1];
    }
  }

  ghost function Shortened(cells: seq<Cell>, n: nat): seq<Cell>
    requires cells != [] && n <= cells[0].len
  {
    [Cell(Wrap(cells[0].seqNum + n), cells[0].len - n, cells[0].next)] + cells[1..]
  }

  /** The list with `n` bytes taken off its first element. */
  lemma ShortFirst(first: Fragment, nodes: seq<Fragment>, cells: seq<Cell>, s: seq<Span>, init: u32, n: nat)
    requires Chain(first, nodes, cells) && Numbered(cells, s, init) && nodes != [] && 0 < n < cells[0].len
    ensures Chain(first, nodes, Shortened(cells, n)) && Numbered(Shortened(cells, n), Cut(s, n), init)
  {
    WrapWrap(init + s[0].lo, n);
    assert Carries(cells[0], s[0], init);
    var cs, t := Shortened(cells, n), Cut(s, n);
    assert Carries(cs[0], t[0], init);
    forall i | 0 < i < |cells|
      ensures cs[i] == cells[i] && Carries(cs[i], t[i], init)
    {
      assert Carries(cells[i], s[i], init);
    }
  }

  lemma RunWithin(s: seq<Span>, lo: int, n: int)
    requires Within(s, lo, lo + n) && n >= 0
    ensures Run(s, lo) <= n
  {}

  lemma EndNumber(init: u32, lo: int, hi: int, k: int)
    ensures Wrap(Wrap(init + lo) + (hi - lo) + k) == Wrap(init + hi + k)
  {
    WrapWrap(init + lo, hi - lo + k);
  }

  lemma EndsBefore(init: u32, a: Span, b: Span)
    requires -HALF < a.hi + 1 - b.lo < HALF
    ensures var aEnd := Wrap(Wrap(init + a.lo) + (a.hi - a.lo) + 1);
      GetMinSeq(aEnd, Wrap(init + b.lo)) == aEnd <==> a.hi < b.lo
  {
    EndNumber(init, a.lo, a.hi, 1);
    FirstOfTwo(init + a.hi + 1, init + b.lo);
  }

  /** Inside a window narrower than half the number space CanMerge means overlap or contact. */
  lemma CanMergeAgrees(init: u32, a: Span, b: Span)
    requires -HALF < a.hi + 1 - b.lo < HALF && -HALF < b.hi + 1 - a.lo < HALF
    ensures CanMerge(Wrap(init + a.lo), a.hi - a.lo, Wrap(init + b.lo), b.hi - b.lo) <==> Touch(a, b)
  {
    EndsBefore(init, a, b);
    EndsBefore(init, b, a);
  }

  lemma MergedStart(init: u32, x: Span, y: Span, aSeq: u32, bSeq: u32)
    requires aSeq == Wrap(init + x.lo) && bSeq == Wrap(init + y.lo) && -HALF < x.lo - y.lo < HALF
    ensures GetMinSeq(aSeq, bSeq) == Wrap(init + Merge(x, y).lo)
  {
    MinMaxAgree(init + x.lo, init + y.lo);
  }

  lemma MergedEnd(init: u32, x: Span, y: Span, aEnd: u32, bEnd: u32)
    requires aEnd == Wrap(init + x.hi) && bEnd == Wrap(init + y.hi) && -HALF < x.hi - y.hi < HALF
    ensures GetMaxSeq(aEnd, bEnd) == Wrap(init + Merge(x, y).hi)
  {
    MinMaxAgree(init + x.hi, init + y.hi);
  }

  lemma EndOf(init: u32, x: Span, c: Cell)
    requires Carries(c, x, init)
    ensures Wrap(c.seqNum + c.len) == Wrap(init + x.hi)
  {
    EndNumber(init, x.lo, x.hi, 0);
  }

  lemma LengthOf(init: u32, lo: int, hi: int, start: u32, end: u32)
    requires 0 <= hi - lo < HALF && start == Wrap(init + lo) && end == Wrap(init + hi)
    ensures Wrap(end - start) == hi - lo
  {
    WrapWrap(init + hi, init + lo);
  }

  /** MergeFragments on the numbers of `x` and `y` gives the numbers of their union. */
  lemma MergedNumbers(init: u32, x: Span, y: Span, a: Cell, b: Cell, start: u32, end: u32)
    requires Carries(a, x, init) && Carries(b, y, init)
    requires -HALF < x.lo - y.lo < HALF && -HALF < x.hi - y.hi < HALF
    requires 0 <= Merge(x, y).hi - Merge(x, y).lo < HALF
    requires start == GetMinSeq(a.seqNum, b.seqNum) && end == GetMaxSeq(Wrap(a.seqNum + a.len), Wrap(b.seqNum + b.len))
    ensures Carries(Cell(start, Wrap(end - start), b.next), Merge(x, y), init)
  {
    EndOf(init, x, a);
    EndOf(init, y, b);
    MergedStart(init, x, y, a.seqNum, b.seqNum);
    MergedEnd(init, x, y, Wrap(a.seqNum + a.len), Wrap(b.seqNum + b.len));
    LengthOf(init, Merge(x, y).lo, Merge(x, y).hi, start, end);
  }

  /** The test of line 603: the new number comes first exactly if nothing was skipped; and the
      assertion of lines 613-614: otherwise it comes after the end of the fragment before it. */
  lemma Before(init: u32, s: seq<Span>, x: Span, i: nat, cells: seq<Cell>)
    requires i <= |s| == |cells| && Canonical(s) && (i > 0 ==> s[i - 1].hi < x.lo) && (i < |s| ==> x.hi < s[i].lo) &&
      x.lo < x.hi
    requires s != [] ==> -HALF < x.lo - s[0].lo < HALF
    requires Untouched(cells, s, init, i, i)
    ensures s != [] ==> (GetMinSeq(Wrap(init + x.lo), cells[0].seqNum) == Wrap(init + x.lo) <==> i == 0)
    ensures i > 0 ==> EndsFirst(cells[i - 1], Wrap(init + x.lo))
  {
    if s != [] {
      assert Carries(cells[0], s[0], init);
      FirstOfTwo(init + x.lo, init + s[0].lo);
    }
    if i > 0 {
      assert Carries(cells[i - 1], s[i - 1], init);
      assert s[0].lo <= s[i - 1].lo;
      EndNumber(init, s[i - 1].lo, s[i - 1].hi, 0);
      MinMaxAgree(init + x.lo, init + s[i - 1].hi);
    }
  }

  predicate EndsFirst(c: Cell, start: u32) {
    GetMinSeq(start, Wrap(c.seqNum + c.len)) == Wrap(c.seqNum + c.len)
  }

  method Mergeable(a: Fragment, b: Fragment, ghost x: Span, ghost y: Span, ghost init: u32) returns (r: bool)
    requires Carries(CellOf(a), x, init) && Carries(CellOf(b), y, init)
    requires -HALF < x.hi + 1 - y.lo < HALF && -HALF < y.hi + 1 - x.lo < HALF
    ensures r <==> Touch(x, y)
  {
    CanMergeAgrees(init, x, y);
    r := CanMerge(a.seqNum, a.len, b.seqNum, b.len);
  }

  method NotBefore(end: u32, start: u32, ghost hi: int, ghost lo: int, ghost init: u32) returns (r: bool)
    requires end == Wrap(init + hi) && start == Wrap(init + lo) && -HALF < hi - lo < HALF
    ensures r <==> hi <= lo
  {
    FirstOfTwo(init + hi, init + lo);
    r := GetMaxSeq(end, start) == start;
  }

  method MergeFragments(a: Fragment, b: Fragment, ghost x: Span, ghost y: Span, ghost init: u32)
    requires Carries(CellOf(a), x, init) && Carries(CellOf(b), y, init) && a != b
    requires -HALF < x.lo - y.lo < HALF && -HALF < x.hi - y.hi < HALF
    requires 0 <= Merge(x, y).hi - Merge(x, y).lo < HALF
    modifies b`seqNum, b`len
    ensures CellOf(b) == Cell(Wrap(init + Merge(x, y).lo), Merge(x, y).hi - Merge(x, y).lo, old(b.next))
  {
    var minSeq: int := GetMinSeq(a.seqNum, b.seqNum);
    var maxSeq: int := GetMaxSeq(Wrap(a.seqNum + a.len), Wrap(b.seqNum + b.len));
    MergedNumbers(init, x, y, CellOf(a), CellOf(b), minSeq, maxSeq);
    b.seqNum := minSeq;
    b.len := Wrap(maxSeq - minSeq);
  }

  class RingBuffer {
    const data: array<byte>
    const initSeq: u32
    var head: nat
    var headOffset: nat
    var tailOffset: nat
    var mergedLen: nat
    var cumLen: nat
    var lastLen: nat
    var headSeq: u32
    var fctx: Fragment?

    /** Which branch of lines 639-643 is compiled: `head_offset += len` if true, the
        `head_offset = len` of the source as it stands if false. */
    const addOffset: bool

    ghost var frags: seq<Fragment>
    ghost var spans: seq<Span>
    ghost var removed: nat

    function Size(): nat {
      data.Length
    }

    ghost predicate ListValid()
      reads this`fctx, this`frags, this`spans, this`removed, frags
    {
      && Size() < HALF - 1
      && Chain(fctx, frags, Cells(frags))
      && Numbered(Cells(frags), spans, initSeq)
      && Canonical(spans)
      && Within(spans, removed, removed + Size())
    }

    /** The loop of RBPut before its element `i`: `newCtx` stands for the interval `cur`, which
        has swallowed the elements from `j` on; if there are any it is element `i - 1`. */
    ghost predicate Walking(s: seq<Span>, x: Span, nodes: seq<Fragment>, i: nat, j: nat, cur: Span, newCtx: Fragment)
      reads this`fctx, this`removed, nodes, newCtx
    {
      && j <= i <= |nodes| == |s|
      && Spliced(fctx, nodes, Cells(nodes), j, if j < i then i - 1 else i)
      && Untouched(Cells(nodes), s, initSeq, j, i)
      && Carries(CellOf(newCtx), cur, initSeq)
      && Reached(s, x, j, i) && cur == Joined(s, x, j, i)
      && (if j < i then newCtx == nodes[i - 1] else newCtx !in nodes && newCtx.next == null)
    }

    /** Element `i` is merged with the fragment under way, which is unlinked if it was in the
        list already (lines 572-586). */
    method Absorb(newCtx: Fragment, iter: Fragment, prev0: Fragment?, pprev: Fragment?,
                  ghost s: seq<Span>, ghost x: Span, ghost nodes: seq<Fragment>, ghost i: nat, ghost j: nat,
                    ghost cur: Span)
      returns (prev: Fragment?)
      requires Walking(s, x, nodes, i, j, cur, newCtx) && i < |nodes| && iter == nodes[i] && Touch(cur, s[i])
      requires Size() < HALF - 1 && Canonical(s) && Within(s, removed, removed + Size())
      requires removed <= x.lo < x.hi <= removed + Size()
      requires prev0 == if i > 0 then nodes[i - 1] else null
      requires j < i ==> pprev == if j > 0 then nodes[j - 1] else null
      modifies this`fctx, nodes
      ensures Walking(s, x, nodes, i + 1, j, Merge(cur, s[i]), iter)
      ensures prev == (if j > 0 then nodes[j - 1] else null) && iter.next == NodeAt(nodes, i + 1)
    {
      hide Wrap, Untouched, Canonical, Within, Reached, Joined;
      JoinedWithin(s, x, j, i, removed, removed + Size());
      Swallow(s, x, j, i);
      MergeInto(newCtx, iter, s, nodes, i, j, cur);
      prev := prev0;
      if prev == newCtx {
        ghost var before := Cells(nodes);
        Unlink(iter, pprev, nodes, i, j);
        UntouchedByLinks(before, Cells(nodes), s, initSeq, j, i + 1);
        prev := pprev;
      }
      assert Cells(nodes)[i] == CellOf(iter);
    }

    method MergeInto(newCtx: Fragment, iter: Fragment, ghost s: seq<Span>, ghost nodes: seq<Fragment>, ghost i: nat,
        ghost j: nat, ghost cur: Span)
      requires j <= i < |nodes| == |s| && iter == nodes[i] && newCtx != iter && Touch(cur, s[i])
      requires Spliced(fctx, nodes, Cells(nodes), j, if j < i then i - 1 else i)
      requires Untouched(Cells(nodes), s, initSeq, j, i) && Carries(CellOf(newCtx), cur, initSeq)
      requires removed <= cur.lo < cur.hi <= removed + Size()
      requires Size() < HALF - 1 && Canonical(s) && Within(s, removed, removed + Size())
      modifies nodes`seqNum, nodes`len
      ensures Spliced(fctx, nodes, Cells(nodes), j, if j < i then i - 1 else i)
      ensures Untouched(Cells(nodes), s, initSeq, j, i + 1)
      ensures Carries(CellOf(iter), Merge(cur, s[i]), initSeq)
    {
      ghost var before := Cells(nodes);
      assert CellOf(iter) == before[i];
      MergeFragments(newCtx, iter, cur, s[i], initSeq);
      assert forall k :: 0 <= k < |nodes| && k != i ==> Cells(nodes)[k] == before[k];
    }

    /** Lines 578-581. */
    method Unlink(iter: Fragment, pprev: Fragment?, ghost nodes: seq<Fragment>, ghost i: nat, ghost j: nat)
      requires j < i < |nodes| && iter == nodes[i] && Spliced(fctx, nodes, Cells(nodes), j, i - 1)
      requires pprev == if j > 0 then nodes[j - 1] else null
      modifies this`fctx, nodes`next
      ensures Spliced(fctx, nodes, Cells(nodes), j, i)
      ensures forall k :: 0 <= k < |nodes| ==> Cells(nodes)[k] == old(Cells(nodes))[k].(next := Cells(nodes)[k].next)
      ensures iter.next == old(iter.next)
    {
      ghost var before := Cells(nodes);
      if pprev != null {
        pprev.next := iter;
      } else {
        fctx := iter;
      }
      assert forall k :: 0 <= k < |nodes| ==>
        Cells(nodes)[k] == if k == j - 1 then before[k].(next := iter) else before[k];
    }

    /** Lines 553-618: the new fragment is merged into the list or linked in. */
    method LinkFragment(curSeq: u32, len: nat, ghost x: Span)
      requires ListValid() && len == x.hi - x.lo
      requires curSeq == Wrap(initSeq + x.lo) && removed <= x.lo < x.hi <= removed + Size()
      modifies this`fctx, this`frags, this`spans, frags
      ensures ListValid() && spans == Put(old(spans), x)
      ensures forall f :: f in frags && f !in old(frags) ==> fresh(f)
    {
      hide Put, Reached, Joined, Spliced, Untouched, Carries, Numbered;
      ghost var s, nodes := spans, frags;
      assert allocated(nodes);
      var newCtx: Fragment := new Fragment(curSeq, len);
      EndNumber(initSeq, x.lo, x.hi, 0);
      Start(s, x, nodes, newCtx);
      var merged, prev, iter;
      ghost var i, j, cur;
      newCtx, merged, prev, iter, i, j, cur := Traverse(newCtx, Wrap(curSeq + len), s, x, nodes);
      Settle(newCtx, merged, prev, iter, curSeq, s, x, nodes, i, j, cur);
    }

    method Settle(newCtx: Fragment, merged: bool, prev: Fragment?, iter: Fragment?, curSeq: u32,
                  ghost s: seq<Span>, ghost x: Span, ghost nodes: seq<Fragment>, ghost i: nat, ghost j: nat,
                    ghost cur: Span)
      requires Walking(s, x, nodes, i, j, cur, newCtx) && (merged <==> j < i)
      requires iter == NodeAt(nodes, i) && prev == if i > 0 then nodes[i - 1] else null
      requires Canonical(s) && Within(s, removed, removed + Size()) && Size() < HALF - 1
      requires removed <= x.lo < x.hi <= removed + Size() && curSeq == Wrap(initSeq + x.lo)
      requires i < |s| ==> cur.hi < s[i].lo
      modifies this`fctx, this`frags, this`spans, nodes`next, newCtx`next
      ensures ListValid() && spans == Put(s, x)
      ensures forall f :: f in frags ==> f in nodes || f == newCtx
    {
      hide Wrap, Spliced, Untouched, Carries, Put, Within, Chain, Numbered;
      PutFormula(s, x, j, i);
      if merged {
        frags, spans := nodes[..j] + nodes[i - 1..], Put(s, x);
        Merged(s, x, nodes, i, j, cur, newCtx);
      } else {
        Hang(newCtx, prev, iter, curSeq, s, x, nodes, i);
      }
    }

    lemma Merged(s: seq<Span>, x: Span, nodes: seq<Fragment>, i: nat, j: nat, cur: Span, newCtx: Fragment)
      requires Walking(s, x, nodes, i, j, cur, newCtx) && j < i
      requires Canonical(s) && Within(s, removed, removed + Size()) && Size() < HALF - 1
      requires removed <= x.lo < x.hi <= removed + Size()
      requires Put(s, x) == s[..j] + [cur] + s[i..]
      requires frags == nodes[..j] + nodes[i - 1..] && spans == Put(s, x)
      ensures ListValid()
    {
      MergedList(s, x, nodes, i, j, cur, newCtx);
      PutCanonical(s, x);
      PutWithin(s, x, removed, removed + Size());
    }

    method Hang(newCtx: Fragment, prev: Fragment?, iter: Fragment?, curSeq: u32, ghost s: seq<Span>, ghost x: Span,
        ghost nodes: seq<Fragment>, ghost i: nat)
      requires Walking(s, x, nodes, i, i, x, newCtx) && curSeq == Wrap(initSeq + x.lo)
      requires iter == NodeAt(nodes, i) && prev == if i > 0 then nodes[i - 1] else null
      requires Canonical(s) && Within(s, removed, removed + Size()) && Size() < HALF - 1
      requires removed <= x.lo < x.hi <= removed + Size()
      requires Put(s, x) == s[..i] + [x] + s[i..] && (i < |s| ==> x.hi < s[i].lo)
      modifies this`fctx, this`frags, this`spans, nodes`next, newCtx`next
      ensures ListValid() && spans == Put(s, x) && frags == nodes[..i] + [newCtx] + nodes[i..]
    {
      hide Canonical, Within, Put, Reached, Joined;
      PutCanonical(s, x);
      PutWithin(s, x, removed, removed + Size());
      HangIn(newCtx, prev, iter, curSeq, s, x, nodes, i);
      frags, spans := nodes[..i] + [newCtx] + nodes[i..], Put(s, x);
    }

    /** The loop (lines 564-595). */
    method Traverse(newCtx0: Fragment, curEnd: u32, ghost s: seq<Span>, ghost x: Span, ghost nodes: seq<Fragment>)
      returns (newCtx: Fragment, merged: bool, prev: Fragment?, iter: Fragment?, ghost i: nat, ghost j: nat,
        ghost cur: Span)
      requires Walking(s, x, nodes, 0, 0, x, newCtx0) && fctx == NodeAt(nodes, 0)
      requires Size() < HALF - 1 && Canonical(s) && Within(s, removed, removed + Size())
      requires curEnd == Wrap(initSeq + x.hi) && removed <= x.lo < x.hi <= removed + Size()
      modifies this`fctx, nodes
      ensures Walking(s, x, nodes, i, j, cur, newCtx) && (merged <==> j < i)
      ensures i < |s| ==> cur.hi < s[i].lo
      ensures iter == NodeAt(nodes, i) && prev == if i > 0 then nodes[i - 1] else null
      ensures !merged ==> newCtx == newCtx0 && cur == x
    {
      hide Wrap, Spliced, Untouched, Carries, Reached, Joined, Canonical, Within, Touch;
      newCtx, merged := newCtx0, false;
      iter, prev := fctx, null;
      var pprev: Fragment? := null;
      i, j, cur := 0, 0, x;
      var stop := false;
      while !stop && iter != null
        invariant Walking(s, x, nodes, i, j, cur, newCtx) && (merged <==> j < i)
        invariant iter == NodeAt(nodes, i) && prev == if i > 0 then nodes[i - 1] else null
        invariant merged ==> pprev == if j > 0 then nodes[j - 1] else null
        invariant stop ==> i < |s| && cur.hi < s[i].lo
        invariant !merged ==> newCtx == newCtx0 && cur == x
        decreases if stop then 0 else |nodes| - i + 1
        modifies this`fctx, nodes
      {
        stop, newCtx, merged, prev, pprev, iter, i, j, cur :=
          Visit(newCtx, merged, iter, prev, pprev, curEnd, s, x, nodes, i, j, cur);
      }
    }

    /** A fragment that merged with nothing is linked in before element `i` (lines 597-618). */
    method HangIn(newCtx: Fragment, prev: Fragment?, iter: Fragment?, curSeq: u32, ghost s: seq<Span>, ghost x: Span,
        ghost nodes: seq<Fragment>, ghost i: nat)
      requires Walking(s, x, nodes, i, i, x, newCtx) && curSeq == Wrap(initSeq + x.lo)
      requires iter == NodeAt(nodes, i) && prev == if i > 0 then nodes[i - 1] else null
      requires Canonical(s) && Within(s, removed, removed + Size()) && Size() < HALF - 1
      requires i < |s| ==> x.hi < s[i].lo
      requires removed <= x.lo < x.hi <= removed + Size()
      modifies this`fctx, nodes`next, newCtx`next
      ensures Chain(fctx, nodes[..i] + [newCtx] + nodes[i..], Cells(nodes[..i] + [newCtx] + nodes[i..]))
      ensures Numbered(Cells(nodes[..i] + [newCtx] + nodes[i..]), s[..i] + [x] + s[i..], initSeq)
    {
      ghost var before := Cells(nodes);
      Before(initSeq, s, x, i, before);
      assert nodes != [] ==> before[0] == CellOf(nodes[0]);
      assert i > 0 ==> before[i - 1] == CellOf(prev);
      Hook(newCtx, prev, iter, curSeq, nodes, i);
      UntouchedByLinks(before, Cells(nodes), s, initSeq, i, i);
      NumberedInsert(Cells(nodes), s, initSeq, i, CellOf(newCtx), x);
      HungChain(fctx, nodes, Cells(nodes), i, newCtx, CellOf(newCtx));
      CellsInsert(nodes, i, newCtx);
    }

    method Hook(newCtx: Fragment, prev: Fragment?, iter: Fragment?, curSeq: u32, ghost nodes: seq<Fragment>,
        ghost i: nat)
      requires i <= |nodes| && newCtx !in nodes && newCtx.next == null && Spliced(fctx, nodes, Cells(nodes), i, i)
      requires iter == NodeAt(nodes, i) && prev == if i > 0 then nodes[i - 1] else null
      requires fctx != null ==> (GetMinSeq(curSeq, fctx.seqNum) == curSeq <==> i == 0)
      requires i > 0 ==> EndsFirst(CellOf(prev), curSeq)
      modifies this`fctx, nodes`next, newCtx`next
      ensures fctx == (if i > 0 then nodes[0] else newCtx) && newCtx.next == NodeAt(nodes, i)
      ensures forall k :: 0 <= k < |nodes| ==>
        Cells(nodes)[k] == old(Cells(nodes))[k].(next := if k == i - 1 then newCtx else NodeAt(nodes, k + 1))
    {
      if fctx == null {
        fctx := newCtx;
      } else if GetMinSeq(curSeq, fctx.seqNum) == curSeq {
        newCtx.next := fctx;
        fctx := newCtx;
      } else {
        assert EndsFirst(CellOf(prev), curSeq);
        prev.next := newCtx;
        newCtx.next := iter;
      }
    }

    lemma MergedList(s: seq<Span>, x: Span, nodes: seq<Fragment>, i: nat, j: nat, cur: Span, newCtx: Fragment)
      requires Walking(s, x, nodes, i, j, cur, newCtx) && j < i
      ensures var list := nodes[..j] + nodes[i - 1..];
        Chain(fctx, list, Cells(list)) && Numbered(Cells(list), s[..j] + [cur] + s[i..], initSeq)
    {
      assert Cells(nodes)[i - 1] == CellOf(newCtx);
      SplicedChain(fctx, nodes, Cells(nodes), j, i - 1);
      NumberedSplice(Cells(nodes), s, initSeq, j, i, cur);
      CellsConcat(nodes[..j], nodes[i - 1..]);
      CellsSplit(nodes, j);
      CellsSplit(nodes, i - 1);
    }

    lemma Start(s: seq<Span>, x: Span, nodes: seq<Fragment>, newCtx: Fragment)
      requires ListValid() && spans == s && frags == nodes
      requires newCtx !in nodes && newCtx.next == null && Carries(CellOf(newCtx), x, initSeq)
      requires removed <= x.lo < x.hi <= removed + Size()
      ensures Walking(s, x, nodes, 0, 0, x, newCtx)
    {}

    lemma Skip(s: seq<Span>, x: Span, nodes: seq<Fragment>, i: nat, newCtx: Fragment)
      requires i < |s| && Walking(s, x, nodes, i, i, x, newCtx) && s[i].hi < x.lo
      ensures Walking(s, x, nodes, i + 1, i + 1, x, newCtx)
    {}

    /** The body of the loop of RBPut (lines 568-595). */
    method Visit(newCtx0: Fragment, merged0: bool, iter0: Fragment, prev0: Fragment?, pprev0: Fragment?, curEnd: u32,
                 ghost s: seq<Span>, ghost x: Span, ghost nodes: seq<Fragment>, ghost i0: nat, ghost j0: nat,
                   ghost cur0: Span)
      returns (stop: bool, newCtx: Fragment, merged: bool, prev: Fragment?, pprev: Fragment?, iter: Fragment?,
        ghost i: nat, ghost j: nat, ghost cur: Span)
      requires Walking(s, x, nodes, i0, j0, cur0, newCtx0) && i0 < |nodes| && iter0 == nodes[i0] &&
        (merged0 <==> j0 < i0)
      requires Size() < HALF - 1 && Canonical(s) && Within(s, removed, removed + Size())
      requires curEnd == Wrap(initSeq + x.hi) && removed <= x.lo < x.hi <= removed + Size()
      requires prev0 == if i0 > 0 then nodes[i0 - 1] else null
      requires merged0 ==> pprev0 == if j0 > 0 then nodes[j0 - 1] else null
      modifies this`fctx, nodes
      ensures Walking(s, x, nodes, i, j, cur, newCtx) && (merged <==> j < i)
      ensures if stop then i == i0 && cur.hi < s[i].lo else i == i0 + 1
      ensures iter == NodeAt(nodes, i) && prev == if i > 0 then nodes[i - 1] else null
      ensures merged ==> pprev == if j > 0 then nodes[j - 1] else null
      ensures !merged ==> newCtx == newCtx0 && cur == x
    {
      hide Wrap, Spliced, Untouched, Carries, Reached, Canonical, Within, Touch;
      var mergeable, past := Decide(iter0, newCtx0, curEnd, s, x, nodes, i0, j0, cur0);
      if mergeable {
        pprev := Absorb(newCtx0, iter0, prev0, pprev0, s, x, nodes, i0, j0, cur0);
        stop, newCtx, merged, prev, iter := false, iter0, true, iter0, iter0.next;
        i, j, cur := i0 + 1, j0, Merge(cur0, s[i0]);
        return;
      }
      newCtx, merged, cur := newCtx0, merged0, cur0;
      stop := merged || past;
      PassOver(newCtx, merged, past, s, x, nodes, i0, j0, cur);
      if stop {
        prev, pprev, iter, i, j := prev0, pprev0, iter0, i0, j0;
      } else {
        prev, pprev, iter, i, j := iter0, prev0, iter0.next, i0 + 1, j0 + 1;
      }
    }

    lemma PassOver(newCtx: Fragment, merged: bool, past: bool, s: seq<Span>, x: Span, nodes: seq<Fragment>, i: nat,
        j: nat, cur: Span)
      requires Walking(s, x, nodes, i, j, cur, newCtx) && i < |s| && (merged <==> j < i) && (past <==> x.hi <= s[i].lo)
      requires Canonical(s) && x.lo < x.hi && !Touch(cur, s[i])
      ensures if merged || past then cur.hi < s[i].lo
        else cur == x && i == j && Walking(s, x, nodes, i + 1, j + 1, x, newCtx)
    {
      Pass(s, x, j, i);
      if !merged && !past {
        Skip(s, x, nodes, i, newCtx);
      }
    }

    /** The two tests of the loop in terms of the intervals (lines 570 and 588-589). */
    method Decide(iter: Fragment, newCtx: Fragment, curEnd: u32, ghost s: seq<Span>, ghost x: Span,
        ghost nodes: seq<Fragment>, ghost i: nat, ghost j: nat, ghost cur: Span)
      returns (mergeable: bool, past: bool)
      requires Walking(s, x, nodes, i, j, cur, newCtx) && i < |nodes| && iter == nodes[i]
      requires Size() < HALF - 1 && Canonical(s) && Within(s, removed, removed + Size())
      requires curEnd == Wrap(initSeq + x.hi) && removed <= x.lo < x.hi <= removed + Size()
      ensures mergeable <==> Touch(cur, s[i])
      ensures past <==> x.hi <= s[i].lo
      ensures iter.next == NodeAt(nodes, i + 1)
    {
      assert Carries(Cells(nodes)[i], s[i], initSeq) && Cells(nodes)[i] == CellOf(iter);
      assert removed <= cur.lo <= cur.hi <= removed + Size();
      mergeable := Mergeable(newCtx, iter, cur, s[i], initSeq);
      past := NotBefore(curEnd, iter.seqNum, x.hi, s[i].lo, initSeq);
    }

    // ---- the buffer

    /** The window `[head, head + lastLen)` of the array holds every fragment's bytes. */
    ghost predicate WindowValid()
      reads this`head, this`headOffset, this`lastLen, this`tailOffset, this`spans, this`removed
    {
      && head == headOffset
      && headOffset + lastLen <= tailOffset <= Size()
      && Within(spans, removed, removed + lastLen)
    }

    /** Everything the buffer keeps true, for either branch of lines 639-643. */
    ghost predicate Valid()
      reads this, data, frags
    {
      && ListValid()
      && 0 <= removed
      && headSeq == Wrap(initSeq + removed)
      && WindowValid()
      && mergedLen == Run(spans, removed)
      && cumLen == (removed + mergedLen) % TWO64
    }

    /** The received bytes that the buffer still holds, by stream position. */
    ghost function Bytes(): map<int, byte>
      requires WindowValid()
      reads this`head, this`headOffset, this`lastLen, this`tailOffset, this`spans, this`removed, data
    {
      CoverWithin(spans, removed, removed + lastLen);
      Held(data[..], head, removed, Cover(spans))
    }

    lemma MergedFits()
      requires Valid()
      ensures 0 <= removed && 0 <= mergedLen <= lastLen <= Size() && WindowValid()
      ensures forall p :: removed <= p < removed + mergedLen ==> p in Cover(spans)
      ensures removed + mergedLen !in Cover(spans)
    {
      RunWithin(spans, removed, lastLen);
      CoverIsCovered(spans, removed + mergedLen);
      RunIsMaximal(spans, removed);
      forall p | removed <= p < removed + mergedLen
        ensures p in Cover(spans)
      {
        CoverIsCovered(spans, p);
      }
    }

    constructor (size: nat, initSeq: u32, addOffset: bool)
      requires size < HALF - 1
      ensures Valid() && fresh(data) && Size() == size && this.initSeq == initSeq && this.addOffset == addOffset
      ensures frags == [] && spans == [] && removed == mergedLen == headOffset == 0
    {
      data := new byte[size];
      this.initSeq, this.addOffset := initSeq, addOffset;
      head, headOffset, tailOffset, mergedLen, cumLen, lastLen := 0, 0, 0, 0, 0, 0;
      headSeq, fctx := initSeq, null;
      frags, spans, removed := [], [], 0;
    }

    /** Lines 537-551: the bytes are stored, after moving the window to the front if it would
        not fit behind its present start. */
    method StoreBytes(payload: seq<byte>, putx: nat)
      requires head == headOffset && headOffset + lastLen <= tailOffset <= Size() && putx + |payload| <= Size()
      modifies this`head, this`headOffset, this`tailOffset, this`lastLen, data
      ensures head == headOffset && headOffset + lastLen <= tailOffset <= Size()
      ensures lastLen >= old(lastLen) && lastLen >= putx + |payload|
      ensures headOffset == old(headOffset) || headOffset == 0
      ensures Overlaid(old(data[..]), old(head), data[..], head, old(lastLen), payload, putx)
    {
      hide Overlaid;
      ghost var w0 := data[..];
      var endOff := putx + |payload|;
      if Size() <= headOffset + endOff {
        MoveToFront();
      }
      ghost var w := data[..];
      CopyIn(head + putx, payload);
      LaidOver(w0, old(head), w, data[..], head, lastLen, payload, putx);
      if tailOffset < headOffset + endOff {
        tailOffset := headOffset + endOff;
      }
      lastLen := tailOffset - headOffset;
    }

    /** Lines 540-543. */
    method MoveToFront()
      requires head == headOffset && headOffset + lastLen <= tailOffset <= Size()
      modifies this`head, this`headOffset, this`tailOffset, data
      ensures head == headOffset == 0 && tailOffset == old(tailOffset - headOffset)
      ensures data[..lastLen] == old(data[head..head + lastLen])
    {
      forall q | 0 <= q < lastLen {
        data[q] := data[head + q];
      }
      tailOffset := tailOffset - headOffset;
      headOffset := 0;
      head := 0;
    }

    method CopyIn(at: nat, bytes: seq<byte>)
      requires at + |bytes| <= Size()
      modifies data
      ensures forall q :: 0 <= q < at || at + |bytes| <= q < Size() ==> data[q] == old(data[q])
      ensures forall q :: at <= q < at + |bytes| ==> data[q] == bytes[q - at]
    {
      forall q | 0 <= q < |bytes| {
        data[at + q] := bytes[q];
      }
    }

    /** RBPut. `pos` is the stream position behind `curSeq`; the number decides correctly which
        side of the head it is on as long as the segment lies within 2^31 of the head. */
    method RBPut(payload: seq<byte>, curSeq: u32, ghost pos: int) returns (r: int)
      requires Valid()
      requires curSeq == Wrap(initSeq + pos) && -HALF < pos - removed
      requires removed <= pos ==> pos - removed + |payload| < HALF
      modifies this`head, this`headOffset, this`tailOffset, this`lastLen, this`mergedLen, this`cumLen
      modifies this`fctx, this`frags, this`spans, data, frags
      ensures Valid()
      ensures forall f :: f in frags && f !in old(frags) ==> fresh(f)
      ensures r == if |payload| == 0 || pos < removed then 0
                   else if pos - removed + |payload| > Size() then -2 else |payload|
      ensures r > 0 ==> spans == Put(old(spans), Span(pos, pos + |payload|))
      ensures r > 0 ==> Bytes() == old(Bytes()) + Payload(payload, pos)
      ensures r <= 0 ==> spans == old(spans) && Bytes() == old(Bytes()) && headOffset == old(headOffset)
      ensures mergedLen >= old(mergedLen) && (headOffset == old(headOffset) || headOffset == 0)
    {
      var len := |payload|;
      if len == 0 {
        return 0;
      }
      FirstOfTwo(initSeq + removed, initSeq + pos);
      if GetMinSeq(headSeq, curSeq) != headSeq {
        return 0;
      }
      OffsetOf(initSeq, removed, pos);
      var putx := Wrap(curSeq as int - headSeq as int);
      var endOff := putx + len;
      if Size() < endOff {
        return -2;
      }
      Accept(payload, curSeq, pos, putx);
      return len;
    }

    /** Lines 537-626: an acceptable segment is stored, linked in and accounted for. */
    method Accept(payload: seq<byte>, curSeq: u32, ghost pos: int, putx: nat)
      requires Valid() && payload != [] && curSeq == Wrap(initSeq + pos)
      requires putx == pos - removed && putx + |payload| <= Size()
      modifies this`head, this`headOffset, this`tailOffset, this`lastLen, this`mergedLen, this`cumLen
      modifies this`fctx, this`frags, this`spans, data, frags
      ensures Valid()
      ensures forall f :: f in frags && f !in old(frags) ==> fresh(f)
      ensures spans == Put(old(spans), Span(pos, pos + |payload|))
      ensures Bytes() == old(Bytes()) + Payload(payload, pos)
      ensures mergedLen >= old(mergedLen) && (headOffset == old(headOffset) || headOffset == 0)
    {
      hide Wrap, Chain, Numbered, Shows, Held, Cover, Payload, Put, Overlaid, Canonical, Run;
      ghost var s, x := spans, Span(pos, pos + |payload|);
      ghost var w0, h0, n, m := data[..], head, lastLen, Bytes();
      BytesShow();
      StoreBytes(payload, putx);
      ghost var w := data[..];
      LinkAndAccount(curSeq, |payload|, x);
      assert data[..] == w;
      StoredBytes(w0, h0, n, s, removed, w, head, payload, pos, m);
    }

    method LinkAndAccount(curSeq: u32, len: nat, ghost x: Span)
      requires ListValid()
      requires curSeq == Wrap(initSeq + x.lo) && len == x.hi - x.lo && removed <= x.lo < x.hi <= removed + Size()
      requires 0 <= removed && headSeq == Wrap(initSeq + removed)
      requires head == headOffset && headOffset + lastLen <= tailOffset <= Size()
      requires Within(spans, removed, removed + lastLen)
      requires x.hi <= removed + lastLen
      requires mergedLen == Run(spans, removed)
      requires cumLen == (removed + mergedLen) % TWO64
      modifies this`mergedLen, this`cumLen, this`fctx, this`frags, this`spans, frags
      ensures Valid() && spans == Put(old(spans), x) && mergedLen >= old(mergedLen)
      ensures forall f :: f in frags && f !in old(frags) ==> fresh(f)
    {
      hide Wrap, Put, Chain, Numbered, Canonical;
      ghost var s := spans;
      LinkFragment(curSeq, len, x);
      PutFacts(s, x, removed, removed + lastLen);
      Account(s);
      assert ListValid();
    }

    /** RBRemove (lines 630-675): the application takes `n` bytes from the front. */
    method RBRemove(len: nat) returns (n: nat)
      requires Valid() && len < HALF
      modifies this`head, this`headOffset, this`lastLen, this`mergedLen, this`headSeq, this`removed
      modifies this`fctx, this`frags, this`spans, frags
      ensures Valid() && n == (if old(mergedLen) < len then old(mergedLen) else len)
      ensures removed == old(removed) + n && mergedLen == old(mergedLen) - n
      ensures n > 0 ==> old(spans) != []
      ensures spans == Cut(old(spans), n)
      ensures forall f :: f in frags ==> f in old(frags)
      ensures headOffset == if n == 0 then old(headOffset) else if addOffset then old(headOffset) + n else n
      ensures addOffset || old(headOffset) == 0 || spans == [] ==> Bytes() == From(old(Bytes()), removed)
    {
      n := len;
      if mergedLen < n {
        n := mergedLen;
      }
      if n == 0 {
        CoverWithin(spans, removed, removed + lastLen);
        FromAll(Bytes(), removed);
        return;
      }
      TakeOff(n);
    }

    method TakeOff(n: nat)
      requires Valid() && 0 < n <= mergedLen
      modifies this`head, this`headOffset, this`lastLen, this`mergedLen, this`headSeq, this`removed
      modifies this`fctx, this`frags, this`spans, frags
      ensures Valid() && removed == old(removed) + n && mergedLen == old(mergedLen) - n
      ensures old(spans) != [] && spans == Cut(old(spans), n)
      ensures forall f :: f in frags ==> f in old(frags)
      ensures headOffset == if addOffset then old(headOffset) + n else n
      ensures addOffset || old(headOffset) == 0 || spans == [] ==> Bytes() == From(old(Bytes()), removed)
    {
      hide Wrap, Chain, Numbered, Shows, Held, Cover, From;
      ghost var s, m, h, lo, w := spans, Bytes(), head, removed, data[..];
      BytesShow();
      RunWithin(s, removed, lastLen);
      Advance(n);
      DropFront(n);
      assert data[..] == w && removed + mergedLen == old(removed + mergedLen);
      if addOffset || h == 0 || spans == [] {
        BytesLeft(s, h, lo, n, m);
      }
    }

    lemma BytesShow()
      requires WindowValid()
      ensures Bytes().Keys == Cover(spans) && Shows(data[..], head, removed, Bytes())
    {}

    lemma BytesLeft(s: seq<Span>, h: nat, lo: int, n: nat, m: map<int, byte>)
      requires Canonical(s) && (s != [] ==> lo <= s[0].lo) && 0 < n <= Run(s, lo)
      requires WindowValid() && removed == lo + n && spans == Cut(s, n)
      requires m.Keys == Cover(s) && Shows(data[..], h, lo, m)
      requires head == h + n || spans == []
      ensures Bytes() == From(m, removed)
    {
      hide Canonical, Cover, Cut, From, Held, Shows;
      if head == h + n {
        HeldCut(s, data[..], h, lo, n, m);
      } else {
        NothingHeld(s, data[..], head, lo, n, m);
      }
    }

    /** Lines 639-648. */
    method Advance(n: nat)
      requires headOffset + lastLen <= tailOffset <= Size() && n <= mergedLen && n <= lastLen
      requires headSeq == Wrap(initSeq + removed)
      modifies this`head, this`headOffset, this`lastLen, this`mergedLen, this`headSeq
      ensures headOffset == (if addOffset then old(headOffset) + n else n) && head == headOffset
      ensures mergedLen == old(mergedLen) - n && lastLen == old(lastLen) - n
      ensures headSeq == Wrap(initSeq + (removed + n)) && headOffset + lastLen <= tailOffset
    {
      headOffset := if addOffset then headOffset + n else n;
      head := headOffset;
      WrapWrap(initSeq + removed, n);
      headSeq := Wrap(headSeq + n);
      mergedLen := mergedLen - n;
      lastLen := lastLen - n;
    }

    /** Lines 650-672; the last branch of the source, an assertion failure, cannot be taken. */
    method DropFront(n: nat)
      requires ListValid() && 0 < n <= Run(spans, removed) && Within(spans, removed, removed + n + lastLen)
      modifies this`fctx, this`frags, this`spans, this`removed, frags
      ensures ListValid() && removed == old(removed) + n && spans == Cut(old(spans), n)
      ensures Run(spans, removed) == Run(old(spans), old(removed)) - n
      ensures Within(spans, removed, removed + lastLen)
      ensures forall f :: f in frags ==> f in old(frags)
    {
      hide Wrap, Chain, Numbered, Cut, Run;
      CutCovers(spans, removed, n);
      CutWithin(spans, removed, removed + Size(), n);
      CutWithin(spans, removed, removed + n + lastLen, n);
      CutFragment(n);
      spans := Cut(spans, n);
      removed := removed + n;
    }

    method CutFragment(n: nat)
      requires ListValid() && 0 < n <= Run(spans, removed)
      modifies this`fctx, this`frags, frags`seqNum, frags`len
      ensures Chain(fctx, frags, Cells(frags)) && Numbered(Cells(frags), Cut(spans, n), initSeq)
      ensures forall f :: f in frags ==> f in old(frags)
    {
      hide Wrap, Canonical, Within, Chain, Numbered, Shortened;
      ghost var cells := Cells(frags);
      FirstFragment();
      if n == fctx.len {
        TailOfList(fctx, frags, cells, spans, initSeq);
        CellsSplit(frags, 1);
        fctx := fctx.next;
        frags := frags[1..];
      } else if n < fctx.len {
        ShortFirst(fctx, frags, cells, spans, initSeq, n);
        Shorten(n);
      } else {
        assert false;
      }
    }

    lemma FirstFragment()
      requires ListValid() && spans != []
      ensures NoRepeats(frags) && frags != [] && fctx == frags[0] && Cells(frags)[0] == CellOf(fctx)
      ensures fctx.len == spans[0].hi - spans[0].lo
    {
      assert Carries(Cells(frags)[0], spans[0], initSeq);
    }

    method Shorten(n: nat)
      requires NoRepeats(frags) && frags != [] && fctx == frags[0] && n < fctx.len
      modifies frags`seqNum, frags`len
      ensures Cells(frags) == Shortened(old(Cells(frags)), n)
    {
      hide Wrap;
      ghost var cells := Cells(frags);
      fctx.seqNum := Wrap(fctx.seqNum + n);
      fctx.len := fctx.len - n;
      assert Cells(frags)[0] == CellOf(fctx);
      assert forall k :: 0 < k < |frags| ==> Cells(frags)[k] == cells[k];
    }

    /** Lines 620-624. */
    method Account(ghost s: seq<Span>)
      requires ListValid()
      requires Run(s, removed) <= Run(spans, removed) && spans != [] && headSeq == Wrap(initSeq + removed)
      requires Run(s, removed) > 0 ==> spans[0].lo == removed
      requires mergedLen == Run(s, removed) && cumLen == (removed + mergedLen) % TWO64
      modifies this`mergedLen, this`cumLen
      ensures mergedLen == Run(spans, removed) >= old(mergedLen) && cumLen == (removed + mergedLen) % TWO64
    {
      assert Cells(frags)[0] == CellOf(fctx);
      OrderAgrees(initSeq + removed, initSeq + spans[0].lo);
      if headSeq == fctx.seqNum {
        AddMod64(removed + mergedLen, fctx.len - mergedLen);
        cumLen := (cumLen + fctx.len - mergedLen) % TWO64;
        mergedLen := fctx.len;
      }
    }
  }

  ghost predicate Fits(cover: set<int>, h: int, lo: int, size: nat) {
    forall p :: p in cover ==> 0 <= h + (p - lo) < size
  }

  /** The bytes of `w` at the positions of `cover`, the window starting at `h` with `lo`. */
  ghost function Held(w: seq<byte>, h: int, lo: int, cover: set<int>): map<int, byte>
    requires Fits(cover, h, lo, |w|)
  {
    map p | p in cover :: w[h + (p - lo)]
  }

  /** `w`, read from `h` on, holds the bytes of `m`, the first of them at position `lo`. */
  ghost predicate Shows(w: seq<byte>, h: int, lo: int, m: map<int, byte>) {
    forall p :: p in m ==> 0 <= h + (p - lo) < |w| && w[h + (p - lo)] == m[p]
  }

  /** After a read the window shows the bytes from the new head on. */
  lemma HeldCut(s: seq<Span>, w: seq<byte>, h: nat, lo: int, n: nat, m: map<int, byte>)
    requires Canonical(s) && (s != [] ==> lo <= s[0].lo) && 0 < n <= Run(s, lo)
    requires m.Keys == Cover(s) && Shows(w, h, lo, m)
    ensures Fits(Cover(Cut(s, n)), h + n, lo + n, |w|)
    ensures Held(w, h + n, lo + n, Cover(Cut(s, n))) == From(m, lo + n)
  {
    CoverCut(s, lo, n);
    HeldLeft(w, h, lo, n, m);
  }

  /** A read that takes everything leaves nothing, wherever the window then starts. */
  lemma NothingHeld(s: seq<Span>, w: seq<byte>, h: nat, lo: int, n: nat, m: map<int, byte>)
    requires Canonical(s) && (s != [] ==> lo <= s[0].lo) && 0 < n <= Run(s, lo) && Cut(s, n) == []
    requires m.Keys == Cover(s)
    ensures Cover(Cut(s, n)) == {} && Held(w, h, lo + n, {}) == From(m, lo + n)
  {
    CoverCut(s, lo, n);
    assert From(m, lo + n).Keys == Above(m.Keys, lo + n);
    assert Held(w, h, lo + n, {}).Keys == From(m, lo + n).Keys;
  }

  /** A read that moves the window start from `h` to `h'` and the head from `lo` to `lo + n`
      leaves the bytes at the positions `rest` where they are looked for, whatever they are. */
  ghost predicate KeepsBytes(size: nat, h: nat, h': nat, lo: int, n: nat, rest: set<int>)
    requires forall p :: p in rest ==> lo + n <= p < lo + size - h && p < lo + n + size - h'
  {
    forall w: seq<byte> :: |w| == size ==> Held(w, h', lo + n, rest) == Held(w, h, lo, rest)
  }

  /** The compiled assignment of line 642 (`h' == n`) keeps the bytes exactly if the window
      started at the front of the buffer or no byte is left in it. */
  lemma CompiledRemoveKeepsBytes(size: nat, h: nat, lo: int, n: nat, rest: set<int>)
    requires forall p :: p in rest ==> lo + n <= p < lo + size - h && p < lo + size
    ensures KeepsBytes(size, h, n, lo, n, rest) <==> h == 0 || rest == {}
  {
    forall p | p in rest && h != 0
      ensures !KeepsBytes(size, h, n, lo, n, rest)
    {
      var w: seq<byte> := seq(size, i => if i == h + (p - lo) then 1 else 0);
      assert Held(w, h, lo, rest)[p] == 1 && Held(w, n, lo + n, rest)[p] == 0;
    }
  }

  /** The disabled assignment of line 640 always keeps them. */
  lemma IntendedRemoveKeepsBytes(size: nat, h: nat, lo: int, n: nat, rest: set<int>)
    requires forall p :: p in rest ==> lo + n <= p < lo + size - h
    ensures KeepsBytes(size, h, h + n, lo, n, rest)
  {}

  /** A run that shows the departure: of three bytes at the front of the buffer, read one by
      one, the compiled branch hands out the first, the second and the second again. */
  method ReadThree(r: RingBuffer, ghost nodes: set<Fragment>) returns (out: seq<byte>)
    requires r.Valid() && !r.addOffset && r.headOffset == 0 && r.mergedLen == 3
    requires forall f :: f in r.frags ==> f in nodes
    modifies r, nodes
    ensures r.Size() >= 3 && out == [r.data[0], r.data[1], r.data[1]] && r.data[..] == old(r.data[..])
  {
    var b0 := ReadOne(r, nodes);
    var b1 := ReadOne(r, nodes);
    var b2 := ReadOne(r, nodes);
    out := [b0, b1, b2];
  }

  method ReadOne(r: RingBuffer, ghost nodes: set<Fragment>) returns (b: byte)
    requires r.Valid() && !r.addOffset && r.mergedLen > 0
    requires forall f :: f in r.frags ==> f in nodes
    modifies r, nodes
    ensures r.Valid() && r.mergedLen == old(r.mergedLen) - 1 && r.headOffset == 1 && r.data[..] == old(r.data[..])
    ensures forall f :: f in r.frags ==> f in nodes
    ensures old(r.headOffset) < r.Size() && b == r.data[old(r.headOffset)]
  {
    RunWithin(r.spans, r.removed, r.lastLen);
    b := r.data[r.head];
    var n := r.RBRemove(1);
  }

  /** `w` holds what `w0` held over a length of `n`, with the payload laid over it. */
  ghost predicate Overlaid(w0: seq<byte>, h0: nat, w: seq<byte>, h: nat, n: nat, payload: seq<byte>, putx: nat) {
    && h0 + n <= |w0| && h + n <= |w| && h + putx + |payload| <= |w|
    && forall i :: h <= i < h + n || h + putx <= i < h + putx + |payload| ==>
         w[i] == if h + putx <= i < h + putx + |payload| then payload[i - h - putx] else w0[i - h + h0]
  }

  /** A move of the window, from `w0` to `w`, and then the payload. */
  lemma LaidOver(w0: seq<byte>, h0: nat, w: seq<byte>, w': seq<byte>, h: nat, n: nat, payload: seq<byte>, putx: nat)
    requires h0 + n <= |w0| && h + n <= |w| == |w'| && h + putx + |payload| <= |w|
    requires w[h..h + n] == w0[h0..h0 + n] && w'[h + putx..h + putx + |payload|] == payload
    requires forall q :: 0 <= q < |w| && (q < h + putx || h + putx + |payload| <= q) ==> w'[q] == w[q]
    ensures Overlaid(w0, h0, w', h, n, payload, putx)
  {
    forall i | h <= i < h + n || h + putx <= i < h + putx + |payload|
      ensures w'[i] == if h + putx <= i < h + putx + |payload| then payload[i - h - putx] else w0[i - h + h0]
    {
      if h + putx <= i < h + putx + |payload| {
        assert w'[h + putx..h + putx + |payload|][i - h - putx] == w'[i];
      } else {
        assert w[h..h + n][i - h] == w[i] && w0[h0..h0 + n][i - h] == w0[i - h + h0];
      }
    }
  }

  lemma StoredBytes(w0: seq<byte>, h0: nat, n: nat, s: seq<Span>, lo: int, w: seq<byte>, h: nat, payload: seq<byte>,
      pos: int, m: map<int, byte>)
    requires payload != [] && lo <= pos && Overlaid(w0, h0, w, h, n, payload, pos - lo)
    requires Canonical(s) && Within(s, lo, lo + n) && m.Keys == Cover(s) && Shows(w0, h0, lo, m)
    ensures Fits(Cover(Put(s, Span(pos, pos + |payload|))), h, lo, |w|)
    ensures Held(w, h, lo, Cover(Put(s, Span(pos, pos + |payload|)))) == m + Payload(payload, pos)
  {
    CoverWithin(s, lo, lo + n);
    CoverPut(s, Span(pos, pos + |payload|));
    HeldStored(w0, h0, n, Cover(s), lo, w, h, payload, pos);
    assert m == Held(w0, h0, lo, Cover(s));
  }

  lemma HeldStored(w0: seq<byte>, h0: nat, n: nat, cover: set<int>, lo: int, w: seq<byte>, h: nat, payload: seq<byte>,
      pos: int)
    requires lo <= pos && Overlaid(w0, h0, w, h, n, payload, pos - lo)
    requires forall p :: p in cover ==> lo <= p < lo + n
    ensures Held(w, h, lo, cover + Range(Span(pos, pos + |payload|))) == Held(w0, h0, lo, cover) + Payload(payload, pos)
  {
    var x := Range(Span(pos, pos + |payload|));
    var a, b := Held(w, h, lo, cover + x), Held(w0, h0, lo, cover) + Payload(payload, pos);
    assert a.Keys == b.Keys;
    forall p | p in cover + x
      ensures a[p] == b[p]
    {
      var i := h + (p - lo);
      assert p in x <==> InSpan(p, Span(pos, pos + |payload|));
      assert a[p] == w[i];
    }
  }

  lemma HeldLeft(w: seq<byte>, h: nat, lo: int, n: nat, m: map<int, byte>)
    requires Shows(w, h, lo, m)
    ensures Held(w, h + n, lo + n, Above(m.Keys, lo + n)) == From(m, lo + n)
  {
    assert Held(w, h + n, lo + n, Above(m.Keys, lo + n)).Keys == From(m, lo + n).Keys;
  }

  lemma FromAll(m: map<int, byte>, lo: int)
    requires forall p :: p in m ==> lo <= p
    ensures From(m, lo) == m
  {}
}
