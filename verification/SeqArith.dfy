/** Wrapping 32-bit sequence numbers (section 3.4 of RFC 9293): the comparison macros of
    include/user_tcp.h and the helpers of src/user_buffer.c, each shown to agree with the
    order of the unbounded stream positions behind the numbers. */
module SeqArith {
  const TWO32: int := 0x1_0000_0000
  const HALF: int := 0x8000_0000
  const MAXSEQ: int := 0xFFFF_FFFF
  const MAX_WINDOW := 65535
  const TWO64: int := 0x1_0000_0000_0000_0000

  type u32 = x: int | 0 <= x < TWO32

  type byte = x: int | 0 <= x < 256

  /** Conversion of any integer to uint32_t. */
  function Wrap(x: int): u32 { x % TWO32 }

  /** Conversion of a uint32_t to int32_t. */
  function Signed(x: u32): int {
    if x < HALF then x else x - TWO32
  }

  function Shl(x: nat, k: nat): nat {
    if k == 0 then x else 2 * Shl(x, k - 1)
  }

  function Shr(x: nat, k: nat): nat {
    if k == 0 then x else Shr(x / 2, k - 1)
  }

  function Min(a: int, b: int): int {
    if a < b then a else b
  }

  /** The window field of a segment in bytes; it is not scaled in a SYN. */
  function ScaledWindow(window: nat, scale: nat, syn: bool): u32 {
    if syn then Wrap(window) else Wrap(Shl(window, scale))
  }

  /** The window field that announces `window` bytes (lines 616-617 of src/user_tcp.c). */
  function WindowField(window: nat, scale: nat): nat {
    Min(Shr(window, scale), MAX_WINDOW)
  }

  lemma {:induction false} ShlMonotone(x: nat, y: nat, k: nat)
    requires x <= y
    ensures x <= Shl(x, k) <= Shl(y, k)
  {
    if k > 0 {
      ShlMonotone(x, y, k - 1);
    }
  }

  lemma {:induction false} ShiftBack(x: nat, k: nat)
    ensures Shl(Shr(x, k), k) <= x
    ensures Shr(x, k) > 0 <==> Shl(1, k) <= x
  {
    if k > 0 {
      ShiftBack(x / 2, k - 1);
    }
  }

  /** What the peer makes of the window field is never more than the window, and it is nothing at
      all exactly if the window is smaller than the unit of the scale. */
  lemma WindowSurvives(window: u32, scale: nat)
    ensures ScaledWindow(WindowField(window, scale), scale, false) == Shl(WindowField(window, scale), scale) <= window
    ensures ScaledWindow(WindowField(window, scale), scale, false) > 0 <==> Shl(1, scale) <= window
  {
    ShiftBack(window, scale);
    ShlMonotone(WindowField(window, scale), Shr(window, scale), scale);
    ShlZero(scale);
  }

  lemma {:induction false} ShlZero(k: nat)
    ensures Shl(0, k) == 0
  {
    if k > 0 {
      ShlZero(k - 1);
    }
  }

  predicate SeqLt(a: u32, b: u32) { Signed(Wrap(a - b)) < 0 }

  predicate SeqLeq(a: u32, b: u32) { Signed(Wrap(a - b)) <= 0 }

  predicate SeqGt(a: u32, b: u32) { Signed(Wrap(a - b)) > 0 }

  predicate SeqGeq(a: u32, b: u32) { Signed(Wrap(a - b)) >= 0 }

  predicate SeqBetween(a: u32, b: u32, c: u32) { SeqGeq(a, b) && SeqLeq(a, c) }

  function GetMinSeq(a: u32, b: u32): u32 {
    if a == b then a
    else if a < b then (if b - a <= MAXSEQ / 2 then a else b)
    else (if a - b <= MAXSEQ / 2 then b else a)
  }

  function GetMaxSeq(a: u32, b: u32): u32 {
    if a == b then a
    else if a < b then (if b - a <= MAXSEQ / 2 then b else a)
    else (if a - b <= MAXSEQ / 2 then a else b)
  }

  lemma WrapSmall(x: int)
    requires 0 <= x < TWO32
    ensures Wrap(x) == x
  {}

  lemma WrapShift(x: int, k: int)
    ensures Wrap(x + k * TWO32) == Wrap(x)
  {}

  lemma WrapWrap(x: int, y: int)
    ensures Wrap(Wrap(x) + y) == Wrap(x + y)
    ensures Wrap(x - Wrap(y)) == Wrap(x - y)
    ensures Wrap(Wrap(x) - Wrap(y)) == Wrap(x - y)
  {
    var i, j := x / TWO32, y / TWO32;
    assert Wrap(x) == x - i * TWO32 && Wrap(y) == y - j * TWO32;
    WrapShift(x + y, -i);
    WrapShift(x - y, j);
    WrapShift(x - y, j - i);
  }

  lemma Normalize(x: int, y: int)
    ensures Wrap(x) - Wrap(y) == Wrap(x - y) || Wrap(x) - Wrap(y) == Wrap(x - y) - TWO32
    ensures 0 <= x - y < TWO32 ==> Wrap(x - y) == x - y
    ensures -TWO32 <= x - y < 0 ==> Wrap(x - y) == x - y + TWO32
  {
    WrapWrap(x, y);
  }

  /** Positions less than half the number space apart compare like their numbers. */
  lemma OrderAgrees(x: int, y: int)
    requires -HALF < x - y < HALF
    ensures SeqLt(Wrap(x), Wrap(y)) <==> x < y
    ensures SeqLeq(Wrap(x), Wrap(y)) <==> x <= y
    ensures SeqGt(Wrap(x), Wrap(y)) <==> x > y
    ensures SeqGeq(Wrap(x), Wrap(y)) <==> x >= y
    ensures Wrap(x) == Wrap(y) <==> x == y
    ensures Wrap(Wrap(x) - Wrap(y)) == Wrap(x - y)
  {
    WrapWrap(x, y);
  }

  lemma MinMaxAgree(x: int, y: int)
    requires -HALF < x - y < HALF
    ensures GetMinSeq(Wrap(x), Wrap(y)) == Wrap(if x <= y then x else y)
    ensures GetMaxSeq(Wrap(x), Wrap(y)) == Wrap(if x <= y then y else x)
  {
    Normalize(x, y);
  }

  lemma FirstOfTwo(x: int, y: int)
    requires -HALF < x - y < HALF
    ensures GetMinSeq(Wrap(x), Wrap(y)) == Wrap(x) <==> x <= y
    ensures GetMaxSeq(Wrap(x), Wrap(y)) == Wrap(y) <==> x <= y
  {
    Normalize(x, y);
  }

  /** At distance exactly 2^31 the bound is reached: the two helpers answer by numeric value,
      so the number that is lower as an unsigned integer counts as the later one. */
  lemma HalfwayIsAmbiguous(x: int, y: int)
    requires x - y == HALF
    ensures GetMinSeq(Wrap(x), Wrap(y)) == (if Wrap(x) > Wrap(y) then Wrap(x) else Wrap(y))
    ensures GetMaxSeq(Wrap(x), Wrap(y)) == (if Wrap(x) > Wrap(y) then Wrap(y) else Wrap(x))
    ensures SeqLt(Wrap(x), Wrap(y)) && SeqLt(Wrap(y), Wrap(x))
  {
    WrapWrap(x, y);
    WrapWrap(y, x);
  }

  /** The difference of two numbers is the distance of their positions. */
  lemma OffsetOf(base: int, lo: int, pos: int)
    requires lo <= pos < lo + TWO32
    ensures Wrap(Wrap(base + pos) - Wrap(base + lo)) == pos - lo
  {
    WrapWrap(base + pos, base + lo);
  }

  lemma Onward(base: int, pos: int, n: int)
    ensures Wrap(Wrap(base + pos) + n) == Wrap(base + (pos + n))
  {
    WrapWrap(base + pos, n);
  }

  // ---- 64-bit counters

  lemma AddMod64(x: int, d: int)
    ensures (x % TWO64 + d) % TWO64 == (x + d) % TWO64
  {
    var q := x / TWO64;
    assert x == x % TWO64 + q * TWO64;
    ShiftMod64(x % TWO64 + d, q);
  }

  lemma ShiftMod64(x: int, k: int)
    ensures (x + k * TWO64) % TWO64 == x % TWO64
  {}

  /** A 64-bit counter has the low word of the number it counts. */
  lemma LowWord(x: int, y: int)
    ensures Wrap(x + y % TWO64) == Wrap(x + y)
  {
    var k := y / TWO64;
    assert y == y % TWO64 + k * TWO64;
    WrapShift(x + y % TWO64, k * TWO32);
  }
}
