/** The memory pool of src/user_mempool.c. Free chunks form runs; the header of a run (its length
    and the next run) lies in its first chunk, so it is memory that the users of the pool write
    to as soon as they get the chunk. Chunk `i` is the address `mp_startptr + i * chunk_size`. */
module MemPools {
  import opened Common

  const NULL := -1

  /** user_mem_chunk: what the first bytes of a chunk mean to the pool. */
  datatype Header = Header(freeChunks: int, next: int)

  /** A run of `len` free chunks from `start` on. */
  datatype Run = Run(start: int, len: int)

  ghost function ChunksOf(r: Run): (s: set<int>)
    ensures forall i :: i in s <==> r.start <= i < r.start + r.len
    decreases r.len
  {
    if r.len <= 0 then {} else ChunksOf(Run(r.start, r.len - 1)) + {r.start + r.len - 1}
  }

  /** All chunks of a pool. */
  ghost function Region(total: int): set<int> {
    ChunksOf(Run(0, total))
  }

  /** All chunks of the runs. */
  ghost function Chunks(runs: seq<Run>): set<int> {
    if runs == [] then {} else ChunksOf(runs[0]) + Chunks(runs[1..])
  }

  ghost function Total(runs: seq<Run>): int {
    if runs == [] then 0 else runs[0].len + Total(runs[1..])
  }

  /** The list that starts at `p` links exactly these runs, and they do not overlap. */
  ghost predicate Chained(mem: seq<Header>, p: int, runs: seq<Run>)
    decreases |runs|
  {
    if runs == [] then p == NULL
    else
      && p == runs[0].start && 0 <= p && 0 < runs[0].len && p + runs[0].len <= |mem|
      && mem[p].freeChunks == runs[0].len
      && ChunksOf(runs[0]) !! Chunks(runs[1..])
      && Chained(mem, mem[p].next, runs[1..])
  }

  /** The list reads only the chunks it consists of. */
  lemma {:induction false} ChainedElsewhere(mem: seq<Header>, mem': seq<Header>, p: int, runs: seq<Run>)
    requires Chained(mem, p, runs) && |mem'| == |mem|
    requires forall i :: i in Chunks(runs) ==> 0 <= i < |mem| && mem'[i] == mem[i]
    ensures Chained(mem', p, runs)
    decreases |runs|
  {
    if runs != [] {
      assert p in ChunksOf(runs[0]);
      ChainedElsewhere(mem, mem', mem[p].next, runs[1..]);
    }
  }

  lemma {:induction false} ChainedWithin(mem: seq<Header>, p: int, runs: seq<Run>)
    requires Chained(mem, p, runs)
    ensures forall i :: i in Chunks(runs) ==> 0 <= i < |mem|
    ensures Total(runs) >= 0 && (Total(runs) == 0 <==> runs == [])
    decreases |runs|
  {
    if runs != [] {
      ChainedWithin(mem, mem[p].next, runs[1..]);
    }
  }

  lemma {:induction false} TotalIsSize(mem: seq<Header>, p: int, runs: seq<Run>)
    requires Chained(mem, p, runs)
    ensures |Chunks(runs)| == Total(runs)
    decreases |runs|
  {
    if runs != [] {
      TotalIsSize(mem, mem[p].next, runs[1..]);
      RunSize(runs[0]);
    }
  }

  lemma {:induction false} RunSize(r: Run)
    requires 0 <= r.len
    ensures |ChunksOf(r)| == r.len
    decreases r.len
  {
    if r.len > 0 {
      RunSize(Run(r.start, r.len - 1));
    }
  }

  /** The chunk at the front leaves its run; the header moves to the next chunk. */
  ghost function WithoutFirst(runs: seq<Run>): seq<Run>
    requires runs != []
  {
    if runs[0].len == 1 then runs[1..] else [Run(runs[0].start + 1, runs[0].len - 1)] + runs[1..]
  }

  lemma FirstLeaves(runs: seq<Run>)
    requires runs != [] && 0 < runs[0].len && ChunksOf(runs[0]) !! Chunks(runs[1..])
    ensures var rest := WithoutFirst(runs);
      Chunks(rest) == Chunks(runs) - {runs[0].start} && Total(rest) == Total(runs) - 1 && runs[0].start in Chunks(runs)
    ensures runs[0].len > 1 ==>
      runs[0].start + 1 in Chunks(runs) && ChunksOf(Run(runs[0].start + 1, runs[0].len - 1)) !! Chunks(runs[1..])
  {
    assert runs[0].start in ChunksOf(runs[0]);
    if runs[0].len > 1 {
      assert runs[0].start + 1 in ChunksOf(runs[0]);
      assert ChunksOf(Run(runs[0].start + 1, runs[0].len - 1)) == ChunksOf(runs[0]) - {runs[0].start};
    } else {
      assert ChunksOf(runs[0]) == {runs[0].start};
    }
  }

  lemma HeaderMoves(mem: seq<Header>, mem': seq<Header>, p: int, runs: seq<Run>)
    requires Chained(mem, p, runs) && runs != [] && runs[0].len > 1 && |mem'| == |mem|
    requires mem'[p + 1] == Header(runs[0].len - 1, mem[p].next)
    requires forall i :: 0 <= i < |mem| && i != p && i != p + 1 ==> mem'[i] == mem[i]
    ensures Chained(mem', p + 1, WithoutFirst(runs))
  {
    FirstLeaves(runs);
    ChainedWithin(mem, mem[p].next, runs[1..]);
    assert p in ChunksOf(runs[0]) && p + 1 in ChunksOf(runs[0]);
    ChainedElsewhere(mem, mem', mem[p].next, runs[1..]);
    assert WithoutFirst(runs)[1..] == runs[1..];
  }

  lemma RunEnds(mem: seq<Header>, mem': seq<Header>, p: int, runs: seq<Run>)
    requires Chained(mem, p, runs) && runs != [] && runs[0].len == 1 && |mem'| == |mem|
    requires forall i :: 0 <= i < |mem| && i != p ==> mem'[i] == mem[i]
    ensures Chained(mem', mem[p].next, WithoutFirst(runs))
  {
    ChainedWithin(mem, mem[p].next, runs[1..]);
    assert p in ChunksOf(runs[0]);
    ChainedElsewhere(mem, mem', mem[p].next, runs[1..]);
  }

  lemma RunAdded(mem: seq<Header>, mem': seq<Header>, p: int, q: int, runs: seq<Run>)
    requires Chained(mem, p, runs) && |mem'| == |mem| && 0 <= q < |mem| && q !in Chunks(runs)
    requires mem'[q] == Header(1, p) && forall i :: 0 <= i < |mem| && i != q ==> mem'[i] == mem[i]
    ensures Chained(mem', q, [Run(q, 1)] + runs)
    ensures Chunks([Run(q, 1)] + runs) == {q} + Chunks(runs) && Total([Run(q, 1)] + runs) == 1 + Total(runs)
  {
    ChainedWithin(mem, p, runs);
    ChainedElsewhere(mem, mem', p, runs);
    assert ([Run(q, 1)] + runs)[1..] == runs;
    assert ChunksOf(Run(q, 1)) == {q};
  }

  class MemPool {
    const chunkSize: int
    const mem: array<Header>
    var freePtr: int
    var freeChunks: int
    const totalChunks: int

    ghost var runs: seq<Run>
    ghost var out: set<int>

    /** The runs and the chunks handed out make up the region, without overlap. What the chunks
        handed out contain does not matter. */
    ghost predicate Valid()
      reads this, mem
    {
      && mem.Length == totalChunks
      && Chained(mem[..], freePtr, runs)
      && freeChunks == Total(runs)
      && out !! Chunks(runs) && out + Chunks(runs) == Region(totalChunks)
    }

    constructor (chunkSize: int, total: nat)
      requires 0 < total
      ensures Valid() && fresh(mem) && out == {} && totalChunks == freeChunks == total && this.chunkSize == chunkSize
    {
      this.chunkSize := chunkSize;
      mem := new Header[total];
      freeChunks, totalChunks, freePtr := total, total, 0;
      runs, out := [Run(0, total)], {};
      new;
      mem[0] := Header(total, NULL);
      assert Chunks(runs) == ChunksOf(runs[0]);
    }

    /** user_mempool_alloc: the number of a chunk, or NULL. */
    method Alloc() returns (p: int)
      requires Valid()
      modifies this`freePtr, this`freeChunks, this`runs, this`out, mem
      ensures Valid()
      // NULL exactly if every chunk is out, otherwise a chunk that is not
      ensures p == NULL <==> old(out) == Region(totalChunks)
      ensures if p == NULL then out == old(out) && freeChunks == old(freeChunks)
              else 0 <= p < totalChunks && p !in old(out) && out == old(out) + {p} && freeChunks == old(freeChunks) - 1
      // what the users have stored is left alone
      ensures forall i :: i in old(out) ==> mem[i] == old(mem[i])
    {
      hide Chained, Chunks, ChunksOf, Total;
      ChainedWithin(mem[..], freePtr, runs);
      p := freePtr;
      NoneFree();
      if freeChunks == 0 {
        return NULL;
      }
      TakeFirst(p);
      freeChunks := freeChunks - 1;
      runs, out := WithoutFirst(runs), out + {p};
    }

    lemma NoneFree()
      requires Valid()
      ensures freeChunks == 0 <==> out == Region(totalChunks)
      ensures freeChunks == 0 <==> runs == []
    {
      ChainedWithin(mem[..], freePtr, runs);
      if runs != [] {
        FirstLeaves(runs);
      }
    }

    /** Lines 94-109: the header of the first run moves to its next chunk, if there is one. */
    method TakeFirst(p: int)
      requires mem.Length == totalChunks && Chained(mem[..], p, runs) && runs != []
      modifies this`freePtr, mem
      ensures 0 <= p < totalChunks && p in Chunks(runs)
      ensures Chained(mem[..], freePtr, WithoutFirst(runs))
      ensures Chunks(WithoutFirst(runs)) == Chunks(runs) - {p} && Total(WithoutFirst(runs)) == Total(runs) - 1
      ensures forall i :: 0 <= i < totalChunks && i !in Chunks(runs) ==> mem[i] == old(mem[i])
    {
      ghost var before := mem[..];
      FirstLeaves(runs);
      assert mem[p].freeChunks > 0;
      mem[p] := mem[p].(freeChunks := mem[p].freeChunks - 1);
      if mem[p].freeChunks != 0 {
        freePtr := p + 1;
        mem[freePtr] := Header(mem[p].freeChunks, mem[p].next);
        HeaderMoves(before, mem[..], p, runs);
      } else {
        freePtr := mem[p].next;
        RunEnds(before, mem[..], p, runs);
      }
    }

    /** user_mempool_free, for a chunk that was handed out. */
    method Free(p: int)
      requires Valid() && p in out
      modifies this`freePtr, this`freeChunks, this`runs, this`out, mem
      ensures Valid() && out == old(out) - {p} && freeChunks == old(freeChunks) + 1
      ensures forall i :: i in out ==> mem[i] == old(mem[i])
    {
      assert p in out + Chunks(runs);
      ghost var before := mem[..];
      mem[p] := Header(1, freePtr);
      RunAdded(before, mem[..], freePtr, p, runs);
      freePtr := p;
      freeChunks := freeChunks + 1;
      runs, out := [Run(p, 1)] + runs, out - {p};
    }

    /** A user writes whatever it likes into a chunk of its own. */
    method Scribble(p: int, h: Header)
      requires Valid() && p in out
      modifies mem
      ensures Valid() && forall i :: 0 <= i < totalChunks && i != p ==> mem[i] == old(mem[i])
    {
      assert p in out + Chunks(runs);
      ghost var before := mem[..];
      ChainedWithin(before, freePtr, runs);
      mem[p] := h;
      ChainedElsewhere(before, mem[..], freePtr, runs);
    }

    /** The free counter is the number of chunks not handed out. */
    lemma FreeIsRest()
      requires Valid()
      ensures freeChunks == totalChunks - |out|
    {
      TotalIsSize(mem[..], freePtr, runs);
      RunSize(Run(0, totalChunks));
      assert |Region(totalChunks)| == |out| + |Chunks(runs)|;
    }
  }

  /** user_mempool_create: none for a chunk size that is too small for the header or not a
      multiple of four; otherwise as many chunks as the total size rounds up to. */
  method Create(chunkSize: int, totalSize: nat) returns (mp: MemPool?)
    requires 0 < totalSize
    ensures mp == null <==> chunkSize < 16 || chunkSize % 4 != 0
    ensures mp != null ==>
      fresh(mp) && fresh(mp.mem) && mp.Valid() && mp.out == {} && mp.totalChunks == ChunkCount(totalSize, chunkSize)
  {
    if chunkSize < 16 {
      return null;
    }
    if chunkSize % 4 != 0 {
      return null;
    }
    CountPositive(totalSize, chunkSize);
    mp := new MemPool(chunkSize, ChunkCount(totalSize, chunkSize));
  }

  function ChunkCount(totalSize: nat, chunkSize: int): int
    requires 0 < chunkSize
  {
    (totalSize + (chunkSize - 1)) / chunkSize
  }

  lemma CountPositive(totalSize: nat, chunkSize: int)
    requires 0 < chunkSize && 0 < totalSize
    ensures 0 < ChunkCount(totalSize, chunkSize)
  {
    var x := totalSize + (chunkSize - 1);
    assert x == x / chunkSize * chunkSize + x % chunkSize;
    MulMonotone(x / chunkSize, 0, chunkSize);
  }

  /** Different chunks occupy different bytes. */
  lemma ChunksDoNotOverlap(i: int, j: int, chunkSize: int)
    requires i < j && 0 < chunkSize
    ensures i * chunkSize + chunkSize <= j * chunkSize
  {
    MulMonotone(i + 1, j, chunkSize);
  }

  /** All chunks lie in the region exactly if the chunk size divides its size: the count is
      rounded up, and otherwise the last chunk reaches beyond the end. */
  lemma LastChunkFits(totalSize: nat, chunkSize: int)
    requires 0 < chunkSize && 0 < totalSize
    ensures ChunkCount(totalSize, chunkSize) * chunkSize <= totalSize <==> totalSize % chunkSize == 0
  {
    var x, q, r := totalSize + (chunkSize - 1), totalSize / chunkSize, totalSize % chunkSize;
    assert totalSize == q * chunkSize + r;
    var k := x / chunkSize;
    assert x == k * chunkSize + x % chunkSize;
    MulMonotone(q + 1, k, chunkSize);
    MulMonotone(k, q, chunkSize);
    assert (q + 1) * chunkSize == q * chunkSize + chunkSize;
  }
}
