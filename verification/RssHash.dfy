/** The cached Toeplitz hash of src/user_addr.c and the choice of a core by it. */
module RssHash {

  const KEY_CACHE_LEN := 96
  const MSB32: bv32 := 0x8000_0000
  const MSB16: bv16 := 0x8000

  /** The key of BuildKeyCache: forty bytes 0x05. */
  const KEY: seq<bv8> := [
    0x05, 0x05, 0x05, 0x05, 0x05, 0x05, 0x05, 0x05,
    0x05, 0x05, 0x05, 0x05, 0x05, 0x05, 0x05, 0x05,
    0x05, 0x05, 0x05, 0x05, 0x05, 0x05, 0x05, 0x05,
    0x05, 0x05, 0x05, 0x05, 0x05, 0x05, 0x05, 0x05,
    0x05, 0x05, 0x05, 0x05, 0x05, 0x05, 0x05, 0x05]

  /** Bit `idx` of the key, the highest bit of each byte first. */
  function KeyBit(key: seq<bv8>, idx: nat): (k: bv32)
    requires idx < 8 * |key|
    ensures k == 0 || k == 1
  {
    if (key[idx / 8] << (idx % 8)) & 0x80 != 0 then 1 else 0
  }

  function Push(acc: bv32, k: bv32): bv32 { (acc << 1) | k }

  function Xor(a: bv32, b: bv32): bv32 { a ^ b }

  function Double(d: bv32): bv32 { d << 1 }

  function Double16(d: bv16): bv16 { d << 1 }

  /** `n` key bits from `idx` on, shifted into `acc` one by one. */
  ghost function ShiftIn(acc: bv32, key: seq<bv8>, idx: nat, n: nat): bv32
    requires idx + n <= 8 * |key|
    decreases n
  {
    if n == 0 then acc else ShiftIn(Push(acc, KeyBit(key, idx)), key, idx + 1, n - 1)
  }

  /** The 32 bits of the key from bit `i` on. */
  ghost function Window(key: seq<bv8>, i: nat): bv32
    requires i + 32 <= 8 * |key|
  {
    ShiftIn(0, key, i, 32)
  }

  lemma {:induction false} ShiftInOneMore(acc: bv32, key: seq<bv8>, idx: nat, n: nat)
    requires idx + n < 8 * |key|
    ensures ShiftIn(acc, key, idx, n + 1) == Push(ShiftIn(acc, key, idx, n), KeyBit(key, idx + n))
    decreases n
  {
    hide Push, KeyBit;
    if n > 0 {
      ShiftInOneMore(Push(acc, KeyBit(key, idx)), key, idx + 1, n - 1);
    }
  }

  /** What is left of a difference between two accumulators after `n` shifts. */
  ghost function Moved(d: bv32, n: nat): bv32
    decreases n
  {
    if n == 0 then d else Moved(Double(d), n - 1)
  }

  lemma PushXor(a: bv32, b: bv32, k: bv32)
    requires k == 0 || k == 1
    ensures Xor(Push(a, k), Push(b, k)) == Double(Xor(a, b))
  {}

  lemma {:induction false} DifferenceMoves(a: bv32, b: bv32, key: seq<bv8>, idx: nat, n: nat)
    requires idx + n <= 8 * |key|
    ensures Xor(ShiftIn(a, key, idx, n), ShiftIn(b, key, idx, n)) == Moved(Xor(a, b), n)
    decreases n
  {
    hide KeyBit, Push, Xor, Double;
    if n > 0 {
      var k := KeyBit(key, idx);
      PushXor(a, b, k);
      DifferenceMoves(Push(a, k), Push(b, k), key, idx + 1, n - 1);
    }
  }

  function Quad(d: bv32): bv32 { d << 4 }

  lemma OneMove(d: bv32, n: nat)
    ensures Moved(d, n + 1) == Moved(Double(d), n)
  {}

  lemma FourDoubles(d: bv32)
    ensures Double(Double(Double(Double(d)))) == Quad(d)
  {}

  lemma FourMoves(d: bv32, n: nat)
    ensures Moved(d, n + 4) == Moved(Quad(d), n)
  {
    hide Moved, Double, Quad;
    OneMove(d, n + 3);
    OneMove(Double(d), n + 2);
    OneMove(Double(Double(d)), n + 1);
    OneMove(Double(Double(Double(d))), n);
    FourDoubles(d);
  }

  lemma SixteenMoves(d: bv32, n: nat)
    ensures Moved(d, n + 16) == Moved(Quad(Quad(Quad(Quad(d)))), n)
  {
    hide Quad, Moved;
    FourMoves(d, n + 12);
    FourMoves(Quad(d), n + 8);
    FourMoves(Quad(Quad(d)), n + 4);
    FourMoves(Quad(Quad(Quad(d))), n);
  }

  /** Nothing is left after 32 shifts. */
  lemma MovesOut(d: bv32)
    ensures Moved(d, 32) == 0
  {
    var half := Quad(Quad(Quad(Quad(d))));
    SixteenMoves(d, 16);
    SixteenMoves(half, 0);
    QuadsMoveOut(d);
    assert Moved(0, 0) == 0;
  }

  lemma QuadsMoveOut(d: bv32)
    ensures Quad(Quad(Quad(Quad(Quad(Quad(Quad(Quad(d)))))))) == 0
  {}

  lemma XorZero(a: bv32, b: bv32)
    requires Xor(a, b) == 0
    ensures a == b
  {}

  /** The next window is the last one, shifted by a bit. */
  lemma WindowSlides(key: seq<bv8>, i: nat)
    requires i + 33 <= 8 * |key|
    ensures Window(key, i + 1) == Push(Window(key, i), KeyBit(key, i + 32))
  {
    hide KeyBit, Push, Xor, Double;
    var k := Push(0, KeyBit(key, i));
    ShiftInOneMore(0, key, i, 32);
    DifferenceMoves(k, 0, key, i + 1, 32);
    MovesOut(Xor(k, 0));
    XorZero(ShiftIn(k, key, i + 1, 32), ShiftIn(0, key, i + 1, 32));
  }

  // ---- BuildKeyCache

  function BitOf(b: bv8, i: nat): (k: bv32)
    requires i < 8
    ensures k == 0 || k == 1
  {
    if (b << i) & 0x80 != 0 then 1 else 0
  }

  lemma KeyBitOfByte(key: seq<bv8>, j: nat, i: nat)
    requires j < |key| && i < 8
    ensures KeyBit(key, 8 * j + i) == BitOf(key[j], i)
  {
    assert (8 * j + i) / 8 == j && (8 * j + i) % 8 == i;
  }

  ghost function PushByte(acc: bv32, b: bv8): bv32 {
    Push(Push(Push(Push(Push(Push(Push(Push(acc, BitOf(b, 0)), BitOf(b, 1)), BitOf(b, 2)), BitOf(b, 3)), BitOf(b, 4)),
      BitOf(b, 5)), BitOf(b, 6)), BitOf(b, 7))
  }

  lemma ByteIsBits(acc: bv32, b: bv8)
    ensures PushByte(acc, b) == Join(acc, b)
  {}

  function Join(acc: bv32, b: bv8): bv32 { (acc << 8) | (b as bv32) }

  lemma JoinFour(b0: bv8, b1: bv8, b2: bv8, b3: bv8)
    ensures Join(Join(Join(Join(0, b0), b1), b2), b3) ==
      ((b0 as bv32) << 24) | ((b1 as bv32) << 16) | ((b2 as bv32) << 8) | (b3 as bv32)
  {}

  lemma ShiftInByte(acc: bv32, key: seq<bv8>, j: nat)
    requires j < |key|
    ensures ShiftIn(acc, key, 8 * j, 8) == PushByte(acc, key[j])
  {
    hide Push, KeyBit, BitOf;
    KeyBitOfByte(key, j, 0);
    KeyBitOfByte(key, j, 1);
    KeyBitOfByte(key, j, 2);
    KeyBitOfByte(key, j, 3);
    KeyBitOfByte(key, j, 4);
    KeyBitOfByte(key, j, 5);
    KeyBitOfByte(key, j, 6);
    KeyBitOfByte(key, j, 7);
    var a1 := Push(acc, BitOf(key[j], 0));
    var a2 := Push(a1, BitOf(key[j], 1));
    var a3 := Push(a2, BitOf(key[j], 2));
    var a4 := Push(a3, BitOf(key[j], 3));
    assert ShiftIn(acc, key, 8 * j, 8) == ShiftIn(a2, key, 8 * j + 2, 6);
    assert ShiftIn(a2, key, 8 * j + 2, 6) == ShiftIn(a4, key, 8 * j + 4, 4);
    var a6 := Push(Push(a4, BitOf(key[j], 4)), BitOf(key[j], 5));
    assert ShiftIn(a4, key, 8 * j + 4, 4) == ShiftIn(a6, key, 8 * j + 6, 2);
  }

  lemma {:induction false} ShiftInConcat(acc: bv32, key: seq<bv8>, idx: nat, m: nat, n: nat)
    requires idx + m + n <= 8 * |key|
    ensures ShiftIn(acc, key, idx, m + n) == ShiftIn(ShiftIn(acc, key, idx, m), key, idx + m, n)
    decreases m
  {
    hide Push, KeyBit;
    if m > 0 {
      ShiftInConcat(Push(acc, KeyBit(key, idx)), key, idx + 1, m - 1, n);
    }
  }

  lemma FirstWindow(key: seq<bv8>)
    requires 4 <= |key|
    ensures Window(key, 0) ==
      ((key[0] as bv32) << 24) | ((key[1] as bv32) << 16) | ((key[2] as bv32) << 8) | (key[3] as bv32)
  {
    hide Push, KeyBit, BitOf, PushByte, ShiftIn;
    var a1 := PushByte(0, key[0]);
    var a2 := PushByte(a1, key[1]);
    var a3 := PushByte(a2, key[2]);
    ShiftInConcat(0, key, 0, 8, 24);
    ShiftInByte(0, key, 0);
    ShiftInConcat(a1, key, 8, 8, 16);
    ShiftInByte(a1, key, 1);
    ShiftInConcat(a2, key, 16, 8, 8);
    ShiftInByte(a2, key, 2);
    ShiftInByte(a3, key, 3);
    FourBytes(key[0], key[1], key[2], key[3]);
  }

  lemma FourBytes(b0: bv8, b1: bv8, b2: bv8, b3: bv8)
    ensures PushByte(PushByte(PushByte(PushByte(0, b0), b1), b2), b3) ==
      ((b0 as bv32) << 24) | ((b1 as bv32) << 16) | ((b2 as bv32) << 8) | (b3 as bv32)
  {
    hide PushByte, Join;
    ByteIsBits(0, b0);
    ByteIsBits(Join(0, b0), b1);
    ByteIsBits(Join(Join(0, b0), b1), b2);
    ByteIsBits(Join(Join(Join(0, b0), b1), b2), b3);
    JoinFour(b0, b1, b2, b3);
  }

  /** Each entry of the cache is the window of the key that starts at its index. */
  method BuildKeyCache(key: seq<bv8>, cache: array<bv32>)
    requires |key| == 40 && cache.Length <= KEY_CACHE_LEN
    modifies cache
    ensures forall i :: 0 <= i < cache.Length ==> cache[i] == Window(key, i)
  {
    hide Push, KeyBit, Window;
    FirstWindow(key);
    var result := ((key[0] as bv32) << 24) | ((key[1] as bv32) << 16) | ((key[2] as bv32) << 8) | (key[3] as bv32);
    var idx := 32;
    for i := 0 to cache.Length
      invariant idx == 32 + i && result == Window(key, i)
      invariant forall j :: 0 <= j < i ==> cache[j] == Window(key, j)
    {
      cache[i] := result;
      WindowSlides(key, i);
      result := Push(result, KeyBit(key, idx));
      idx := idx + 1;
    }
  }

  // ---- GetRSSHash

  /** The `n` highest bits of a word, highest first. */
  ghost function Bits32(x: bv32, n: nat): (b: seq<bool>)
    ensures |b| == n
    decreases n
  {
    if n == 0 then [] else [x & MSB32 != 0] + Bits32(Double(x), n - 1)
  }

  ghost function Bits16(x: bv16, n: nat): (b: seq<bool>)
    ensures |b| == n
    decreases n
  {
    if n == 0 then [] else [x & MSB16 != 0] + Bits16(Double16(x), n - 1)
  }

  /** The Toeplitz hash: the exclusive or of the key's windows at the positions of the set bits. */
  ghost function Toeplitz(key: seq<bv8>, bits: seq<bool>, at: nat): bv32
    requires at + |bits| + 32 <= 8 * |key|
  {
    if bits == [] then 0 else Xor(if bits[0] then Window(key, at) else 0, Toeplitz(key, bits[1..], at + 1))
  }

  /** The 96 input bits. */
  ghost function Input(sip: bv32, dip: bv32, sp: bv16, dp: bv16): (b: seq<bool>)
    ensures |b| == 96
  {
    Bits32(sip, 32) + Bits32(dip, 32) + Bits16(sp, 16) + Bits16(dp, 16)
  }

  ghost function Hash(sip: bv32, dip: bv32, sp: bv16, dp: bv16): bv32 {
    Toeplitz(KEY, Input(sip, dip, sp, dp), 0)
  }

  lemma XorLaws(a: bv32, b: bv32, c: bv32)
    ensures Xor(a, Xor(b, c)) == Xor(Xor(a, b), c) && Xor(a, b) == Xor(b, a) && Xor(0, a) == a == Xor(a, 0)
  {}

  lemma {:induction false} ToeplitzConcat(key: seq<bv8>, a: seq<bool>, b: seq<bool>, at: nat)
    requires at + |a| + |b| + 32 <= 8 * |key|
    ensures Toeplitz(key, a + b, at) == Xor(Toeplitz(key, a, at), Toeplitz(key, b, at + |a|))
  {
    hide Xor, Window;
    if a == [] {
      assert a + b == b;
      XorLaws(Toeplitz(key, b, at), 0, 0);
    } else {
      assert (a + b)[1..] == a[1..] + b;
      ToeplitzConcat(key, a[1..], b, at + 1);
      XorLaws(if a[0] then Window(key, at) else 0, Toeplitz(key, a[1..], at + 1), Toeplitz(key, b, at + |a|));
    }
  }

  /** The highest bit is folded into the result, the others are left. */
  lemma FirstBit32(x: bv32, n: nat, at: nat, res: bv32)
    requires 0 < n && at + n + 32 <= 320
    ensures var rest := Toeplitz(KEY, Bits32(Double(x), n - 1), at + 1);
      Xor(res, Toeplitz(KEY, Bits32(x, n), at)) == Xor(if x & MSB32 != 0 then Xor(res, Window(KEY, at)) else res, rest)
  {
    hide Window, Xor, Double;
    var bits := Bits32(x, n);
    assert bits[1..] == Bits32(Double(x), n - 1);
    XorLaws(res, if bits[0] then Window(KEY, at) else 0, Toeplitz(KEY, bits[1..], at + 1));
    XorLaws(res, 0, 0);
  }

  lemma FirstBit16(x: bv16, n: nat, at: nat, res: bv32)
    requires 0 < n && at + n + 32 <= 320
    ensures var rest := Toeplitz(KEY, Bits16(Double16(x), n - 1), at + 1);
      Xor(res, Toeplitz(KEY, Bits16(x, n), at)) == Xor(if x & MSB16 != 0 then Xor(res, Window(KEY, at)) else res, rest)
  {
    hide Window, Xor, Double16;
    var bits := Bits16(x, n);
    assert bits[1..] == Bits16(Double16(x), n - 1);
    XorLaws(res, if bits[0] then Window(KEY, at) else 0, Toeplitz(KEY, bits[1..], at + 1));
    XorLaws(res, 0, 0);
  }

  lemma NoBits(res: bv32, x: bv32, y: bv16, at: nat)
    requires at + 32 <= 320
    ensures Xor(res, Toeplitz(KEY, Bits32(x, 0), at)) == res == Xor(res, Toeplitz(KEY, Bits16(y, 0), at))
  {
    XorLaws(res, 0, 0);
  }

  class HashCache {
    var first: bool
    const keyCache: array<bv32>

    ghost predicate Valid()
      reads this, keyCache
    {
      keyCache.Length == KEY_CACHE_LEN &&
        (!first ==> forall i :: 0 <= i < KEY_CACHE_LEN ==> keyCache[i] == Window(KEY, i))
    }

    constructor ()
      ensures Valid() && fresh(keyCache)
    {
      first := true;
      keyCache := new bv32[KEY_CACHE_LEN];
    }

    /** GetRSSHash: the first call fills the cache, every call gives the Toeplitz hash. */
    method GetRSSHash(sip: bv32, dip: bv32, sp: bv16, dp: bv16) returns (res: bv32)
      requires Valid()
      modifies this, keyCache
      ensures Valid() && !first && res == Hash(sip, dip, sp, dp)
    {
      hide Window, Xor, Toeplitz, Bits32, Bits16;
      if first {
        BuildKeyCache(KEY, keyCache);
        first := false;
      }
      res := XorWord(sip, 0, 0);
      XorLaws(Toeplitz(KEY, Bits32(sip, 32), 0), 0, 0);
      res := XorWord(dip, 32, res);
      ToeplitzConcat(KEY, Bits32(sip, 32), Bits32(dip, 32), 0);
      res := XorPort(sp, 64, res);
      ToeplitzConcat(KEY, Bits32(sip, 32) + Bits32(dip, 32), Bits16(sp, 16), 0);
      res := XorPort(dp, 80, res);
      ToeplitzConcat(KEY, Bits32(sip, 32) + Bits32(dip, 32) + Bits16(sp, 16), Bits16(dp, 16), 0);
    }

    /** The queue that a packet with these endpoints is delivered to. */
    method GetRSSCPUCore(sip: bv32, dip: bv32, sp: bv16, dp: bv16, numQueues: nat, endian: bool) returns (core: nat)
      requires Valid() && 0 < numQueues
      modifies this, keyCache
      ensures Valid() && core == CoreOf(sip, dip, sp, dp, numQueues, endian)
    {
      hide Hash, Entry;
      var hash := GetRSSHash(sip, dip, sp, dp);
      core := Modulo(Entry(hash, endian) as nat, numQueues);
    }

    /** Lines 391-402. */
    method XorWord(x0: bv32, at: nat, res0: bv32) returns (res: bv32)
      requires Valid() && !first && at <= 64
      ensures res == Xor(res0, Toeplitz(KEY, Bits32(x0, 32), at))
    {
      hide Window, Xor, Double, Toeplitz, Bits32;
      res := res0;
      var x := x0;
      for i := 0 to 32
        invariant Xor(res, Toeplitz(KEY, Bits32(x, 32 - i), at + i)) == Xor(res0, Toeplitz(KEY, Bits32(x0, 32), at))
      {
        FirstBit32(x, 32 - i, at + i, res);
        if x & MSB32 != 0 {
          res := Xor(res, keyCache[at + i]);
        }
        x := Double(x);
      }
      NoBits(res, x, 0, at + 32);
    }

    /** Lines 403-414. */
    method XorPort(x0: bv16, at: nat, res0: bv32) returns (res: bv32)
      requires Valid() && !first && at <= 80
      ensures res == Xor(res0, Toeplitz(KEY, Bits16(x0, 16), at))
    {
      hide Window, Xor, Double16, Toeplitz, Bits16;
      res := res0;
      var x := x0;
      for i := 0 to 16
        invariant Xor(res, Toeplitz(KEY, Bits16(x, 16 - i), at + i)) == Xor(res0, Toeplitz(KEY, Bits16(x0, 16), at))
      {
        FirstBit16(x, 16 - i, at + i, res);
        if x & MSB16 != 0 {
          res := Xor(res, keyCache[at + i]);
        }
        x := Double16(x);
      }
      NoBits(res, 0, x, at + 16);
    }
  }

  // ---- symmetry, and the choice of a core

  lemma KeyIsUniform(j: nat)
    requires j < 40
    ensures KEY[j] == 0x05
  {}

  lemma KeyRepeats(i: nat, d: nat)
    requires d % 8 == 0 && i + d < 320
    ensures KeyBit(KEY, i + d) == KeyBit(KEY, i)
  {
    hide KeyBit;
    forall j | 0 <= j < 40
      ensures KEY[j] == 0x05
    {
      KeyIsUniform(j);
    }
    UniformRepeats(KEY, 0x05, i / 8, d / 8, i % 8);
  }

  lemma UniformRepeats(key: seq<bv8>, b: bv8, j: nat, k: nat, r: nat)
    requires (forall m :: 0 <= m < |key| ==> key[m] == b) && j + k < |key| && r < 8
    ensures KeyBit(key, 8 * (j + k) + r) == KeyBit(key, 8 * j + r)
  {
    hide KeyBit, BitOf;
    KeyBitOfByte(key, j, r);
    KeyBitOfByte(key, j + k, r);
  }

  lemma {:induction false} ShiftInRepeats(acc: bv32, i: nat, d: nat, n: nat)
    requires d % 8 == 0 && i + d + n <= 320
    ensures ShiftIn(acc, KEY, i + d, n) == ShiftIn(acc, KEY, i, n)
    decreases n
  {
    hide Push, KeyBit;
    if n > 0 {
      KeyRepeats(i, d);
      ShiftInRepeats(Push(acc, KeyBit(KEY, i)), i + 1, d, n - 1);
    }
  }

  /** With this key a block of bits hashes to the same value wherever a whole number of bytes
      away it stands. */
  lemma {:induction false} ToeplitzRepeats(bits: seq<bool>, at: nat, d: nat)
    requires d % 8 == 0 && at + d + |bits| + 32 <= 320
    ensures Toeplitz(KEY, bits, at + d) == Toeplitz(KEY, bits, at)
  {
    hide Xor, ShiftIn;
    if bits != [] {
      ShiftInRepeats(0, at, d, 32);
      ToeplitzRepeats(bits[1..], at + 1, d);
    }
  }

  lemma HashParts(sip: bv32, dip: bv32, sp: bv16, dp: bv16)
    ensures Hash(sip, dip, sp, dp) ==
      Xor(Xor(Xor(Toeplitz(KEY, Bits32(sip, 32), 0), Toeplitz(KEY, Bits32(dip, 32), 0)),
              Toeplitz(KEY, Bits16(sp, 16), 0)), Toeplitz(KEY, Bits16(dp, 16), 0))
  {
    hide Xor, Window, Toeplitz, Bits32, Bits16;
    var a, b, c, d := Bits32(sip, 32), Bits32(dip, 32), Bits16(sp, 16), Bits16(dp, 16);
    ToeplitzConcat(KEY, a, b, 0);
    ToeplitzConcat(KEY, a + b, c, 0);
    ToeplitzConcat(KEY, a + b + c, d, 0);
    ToeplitzRepeats(b, 0, 32);
    ToeplitzRepeats(c, 0, 64);
    ToeplitzRepeats(d, 0, 80);
  }

  /** The hash does not depend on the direction of the flow. */
  lemma HashIsSymmetric(sip: bv32, dip: bv32, sp: bv16, dp: bv16)
    ensures Hash(sip, dip, sp, dp) == Hash(dip, sip, dp, sp)
  {
    hide Xor, Toeplitz, Bits32, Bits16, Hash;
    HashParts(sip, dip, sp, dp);
    HashParts(dip, sip, dp, sp);
    Swapped(Toeplitz(KEY, Bits32(sip, 32), 0), Toeplitz(KEY, Bits32(dip, 32), 0),
            Toeplitz(KEY, Bits16(sp, 16), 0), Toeplitz(KEY, Bits16(dp, 16), 0));
  }

  lemma Swapped(a: bv32, b: bv32, c: bv32, d: bv32)
    ensures Xor(Xor(Xor(a, b), c), d) == Xor(Xor(Xor(b, a), d), c)
  {}

  const RSS_BIT_MASK: bv32 := 0x7F
  const OFF: seq<bv32> := [3, 1, 0xFFFF_FFFF, 0xFFFF_FFFD]

  /** The entry of the redirection table that a hash selects; with `endian` the entries of each
      group of four stand in reverse order. */
  function Entry(hash: bv32, endian: bool): (e: bv32)
    ensures e <= 127
  {
    var masked := hash & RSS_BIT_MASK;
    if endian then masked + OFF[(masked & 3) as nat] else masked
  }

  /** The reversed order is the one the comment in the source draws: 3 2 1 0, 7 6 5 4, ... */
  lemma EntryReversesGroups(hash: bv32)
    ensures Entry(hash, true) == (Entry(hash, false) & 0x7C) | (3 - (Entry(hash, false) & 3))
  {}

  ghost function CoreOf(sip: bv32, dip: bv32, sp: bv16, dp: bv16, numQueues: nat, endian: bool): (core: nat)
    requires 0 < numQueues
    ensures core < numQueues
  {
    Modulo(Entry(Hash(sip, dip, sp, dp), endian) as nat, numQueues)
  }

  function Modulo(x: nat, n: nat): (r: nat)
    requires 0 < n
    ensures r < n
  {
    x % n
  }

  /** Both directions of a flow go to the same core. */
  lemma CoreIsSymmetric(sip: bv32, dip: bv32, sp: bv16, dp: bv16, numQueues: nat, endian: bool)
    requires 0 < numQueues
    ensures CoreOf(sip, dip, sp, dp, numQueues, endian) == CoreOf(dip, sip, dp, sp, numQueues, endian)
  {
    hide Hash, Entry;
    HashIsSymmetric(sip, dip, sp, dp);
  }
}
