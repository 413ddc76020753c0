/** The compacting send buffer of src/user_buffer.c: a byte queue in a fixed array, with the
    sequence number of its first byte. */
module SendBuffers {
  import opened SeqArith

  class SendBuffer {
    const data: array<byte>
    const initSeq: u32
    var head: nat
    var headOff: nat
    var tailOff: nat
    var len: nat
    var cumLen: nat
    var headSeq: u32

    /** Every byte ever accepted, and how many of them have left again. */
    ghost var stream: seq<byte>
    ghost var removed: nat

    function Size(): nat {
      data.Length
    }

    ghost predicate Valid()
      reads this, data
    {
      && Size() < HALF
      && head == headOff && tailOff == headOff + len <= Size()
      && removed + len == |stream| && Holds(data[..], head, len, stream, removed)
      && headSeq == Wrap(initSeq + removed)
      && cumLen == |stream| % TWO64
    }

    /** The bytes waiting to be acknowledged. */
    ghost function Contents(): seq<byte>
      reads this, data
      requires Valid()
    {
      stream[removed..]
    }

    /** SBInit. */
    constructor (size: nat, initSeq: u32)
      requires size < HALF
      ensures Valid() && fresh(data) && Size() == size && this.initSeq == initSeq
      ensures stream == [] && removed == 0 && len == 0 && headSeq == initSeq
    {
      data := new byte[size];
      this.initSeq := initSeq;
      head, headOff, tailOff, len, cumLen, headSeq := 0, 0, 0, 0, 0, initSeq;
      stream, removed := [], 0;
    }

    /** SBPut: as many bytes as fit are appended; -2 if none do. */
    method SBPut(bytes: seq<byte>) returns (r: int)
      requires Valid()
      modifies this, data
      ensures Valid() && removed == old(removed)
      ensures r == if bytes == [] then 0 else if old(len) == Size() then -2
                   else if |bytes| < Size() - old(len) then |bytes| else Size() - old(len)
      ensures stream == if r > 0 then old(stream) + bytes[..r] else old(stream)
    {
      if |bytes| <= 0 {
        return 0;
      }
      var toPut := if |bytes| < Size() - len then |bytes| else Size() - len;
      if toPut <= 0 {
        return -2;
      }
      Append(bytes[..toPut]);
      len := len + toPut;
      AddMod64(|stream|, toPut);
      cumLen := (cumLen + toPut) % TWO64;
      stream := stream + bytes[..toPut];
      return toPut;
    }

    /** Lines 93-107: the bytes are laid behind the last one, after a move to the front if they
        would reach the end of the array. */
    method Append(bytes: seq<byte>)
      requires head == headOff && tailOff == headOff + len && len + |bytes| <= Size() && tailOff <= Size()
      requires Holds(data[..], head, len, stream, removed)
      modifies this`head, this`headOff, this`tailOff, data
      ensures head == headOff && tailOff == headOff + len + |bytes| <= Size()
      ensures Holds(data[..], head, len + |bytes|, stream + bytes, removed)
    {
      if tailOff + |bytes| < Size() {
        CopyIn(tailOff, bytes);
        tailOff := tailOff + |bytes|;
      } else {
        MoveToFront();
        CopyIn(len, bytes);
        tailOff := len + |bytes|;
      }
    }

    method CopyIn(at: nat, bytes: seq<byte>)
      requires at + |bytes| <= Size()
      modifies data
      ensures forall q :: 0 <= q < at ==> data[q] == old(data[q])
      ensures forall q :: at <= q < at + |bytes| ==> data[q] == bytes[q - at]
    {
      forall q | 0 <= q < |bytes| {
        data[at + q] := bytes[q];
      }
    }

    method MoveToFront()
      requires Holds(data[..], head, len, stream, removed)
      modifies this`head, this`headOff, data
      ensures head == headOff == 0 && Holds(data[..], head, len, stream, removed)
    {
      forall q | 0 <= q < len {
        data[q] := data[head + q];
      }
      head := 0;
      headOff := 0;
    }

    /** SBRemove: the oldest bytes leave; -2 if there are none. */
    method SBRemove(n: nat) returns (r: int)
      requires Valid()
      modifies this`head, this`headOff, this`tailOff, this`len, this`headSeq, this`removed
      ensures Valid()
      ensures r == if n == 0 then 0 else if old(len) == 0 then -2 else if n < old(len) then n else old(len)
      ensures removed == old(removed) + if r > 0 then r else 0
    {
      if n <= 0 {
        return 0;
      }
      var toRemove := if n < len then n else len;
      if toRemove <= 0 {
        return -2;
      }
      WrapWrap(initSeq + removed, toRemove);
      Drop(toRemove);
      removed := removed + toRemove;
      return toRemove;
    }

    /** Lines 125-136. */
    method Drop(n: nat)
      requires n <= len && head == headOff && headOff + len == tailOff
      modifies this`head, this`headOff, this`tailOff, this`len, this`headSeq
      ensures len == old(len) - n && headSeq == Wrap(old(headSeq) + n)
      ensures head == headOff && headOff + len == tailOff && tailOff <= old(tailOff)
      ensures len > 0 ==> head == old(head) + n
    {
      headOff := headOff + n;
      head := headOff;
      headSeq := Wrap(headSeq + n);
      len := len - n;
      if len == 0 && headOff > 0 {
        head := 0;
        headOff := 0;
        tailOff := 0;
      }
    }

    /** What the array holds is the queue. */
    lemma Stored()
      requires Valid()
      ensures data[head..head + len] == Contents()
    {}

    /** `head_seq + len` is the number behind the last byte accepted: it depends on `cum_len`
        only, so removals leave the right edge where it is. */
    lemma RightEdge()
      requires Valid()
      ensures Wrap(headSeq + len) == Wrap(initSeq + cumLen) == Wrap(initSeq + |stream|)
    {
      WrapWrap(initSeq + removed, len);
      LowWord(initSeq, |stream|);
    }
  }

  /** `len` bytes of `w` from `h` on are the bytes of `stream` from `removed` to its end. */
  ghost predicate Holds(w: seq<byte>, h: nat, len: nat, stream: seq<byte>, removed: nat) {
    && h + len <= |w| && removed + len == |stream|
    && forall i :: h <= i < h + len ==> w[i] == stream[i - h + removed]
  }
}
