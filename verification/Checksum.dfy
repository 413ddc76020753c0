/** The Internet checksum of src/user_tcp.c:114-146 as its sender and its verifier see it, on
    hosts of either byte order (sections 1 and 2 of RFC 1071). */
module Checksums {
  import opened SeqArith

  const PROTO_TCP := 6
  const ONES: int := 0xFFFF

  /** How a host reads two bytes of memory as a 16-bit number. */
  function Word(first: byte, second: byte, little: bool): nat {
    if little then first + 256 * second else 256 * first + second
  }

  /** ... and four bytes as a 32-bit number. */
  function Read32(b: seq<byte>, little: bool): u32
    requires |b| == 4
  {
    if little then Word(b[0], b[1], true) + 0x1_0000 * Word(b[2], b[3], true)
    else 0x1_0000 * Word(b[0], b[1], false) + Word(b[2], b[3], false)
  }

  function Htons(x: nat, little: bool): nat
    requires x < 0x1_0000
  {
    if little then x / 256 + 256 * (x % 256) else x
  }

  /** `w & ntohs(0xFF00)`: the byte that comes first in memory. */
  function FirstByte(w: nat, little: bool): nat {
    if little then w % 256 else w / 256 % 256 * 256
  }

  /** The sum of the words of the bytes, padded with a zero byte. */
  ghost function WordSum(b: seq<byte>, little: bool): nat {
    if |b| == 0 then 0
    else if |b| == 1 then Word(b[0], 0, little)
    else Word(b[0], b[1], little) + WordSum(b[2..], little)
  }

  lemma {:induction false} SumBound(b: seq<byte>, little: bool)
    ensures WordSum(b, little) <= (|b| + 1) / 2 * ONES
  {
    if |b| > 1 {
      SumBound(b[2..], little);
    }
  }

  lemma {:induction false} SumConcat(a: seq<byte>, b: seq<byte>, little: bool)
    requires |a| % 2 == 0
    ensures WordSum(a + b, little) == WordSum(a, little) + WordSum(b, little)
  {
    if a == [] {
      assert a + b == b;
    } else {
      assert (a + b)[2..] == a[2..] + b;
      SumConcat(a[2..], b, little);
    }
  }

  /** The addresses, the length and the protocol number as they stand in the packet. */
  ghost function PseudoHeader(saddr: seq<byte>, daddr: seq<byte>, len: nat): seq<byte>
    requires len < 0x1_0000
  {
    saddr + daddr + [len / 256, len % 256] + [0, PROTO_TCP]
  }

  /** Everything that is summed up. */
  ghost function Total(buf: seq<byte>, saddr: seq<byte>, daddr: seq<byte>, little: bool): nat
    requires |saddr| == |daddr| == 4 && |buf| < 0x1_0000
  {
    WordSum(buf, little) + WordSum(PseudoHeader(saddr, daddr, |buf|), little)
  }

  /** The ones' complement sum: the residue modulo 65535, with 65535 in place of 0 unless
      nothing at all was added. */
  function OnesSum(x: nat): nat {
    if x == 0 then 0 else (x - 1) % ONES + 1
  }

  lemma PseudoSum(saddr: seq<byte>, daddr: seq<byte>, len: nat, little: bool)
    requires |saddr| == |daddr| == 4 && len < 0x1_0000
    ensures WordSum(PseudoHeader(saddr, daddr, len), little) ==
      Read32(saddr, little) % 0x1_0000 + Read32(saddr, little) / 0x1_0000 +
      Read32(daddr, little) % 0x1_0000 + Read32(daddr, little) / 0x1_0000 +
      Htons(len, little) + Htons(PROTO_TCP, little)
  {
    var tail: seq<byte> := [len / 256, len % 256];
    var proto: seq<byte> := [0, PROTO_TCP];
    SumConcat(saddr + daddr + tail, proto, little);
    SumConcat(saddr + daddr, tail, little);
    SumConcat(saddr, daddr, little);
    FourBytes(saddr, little);
    FourBytes(daddr, little);
    TwoBytes(tail, little);
    TwoBytes(proto, little);
  }

  lemma TwoBytes(b: seq<byte>, little: bool)
    requires |b| == 2
    ensures WordSum(b, little) == Word(b[0], b[1], little)
  {
    assert b[2..] == [];
  }

  lemma FourBytes(b: seq<byte>, little: bool)
    requires |b| == 4
    ensures WordSum(b, little) == Read32(b, little) % 0x1_0000 + Read32(b, little) / 0x1_0000
  {
    TwoBytes(b[2..], little);
  }

  /** An addition to the 32-bit accumulator. */
  function Add32(a: u32, b: nat): (r: u32)
    ensures a + b < TWO32 ==> r == a + b
  {
    Wrap(a + b)
  }

  /** user_tcp_calculate_checksum. Every addition is one of 32 bits; `beyond` is the byte that
      lies behind a buffer of odd length and is read with its last byte. */
  method CalculateChecksum(buf: seq<byte>, beyond: byte, saddr: seq<byte>, daddr: seq<byte>, little: bool)
    returns (c: nat)
    requires |saddr| == |daddr| == 4 && |buf| < 0x1_0000
    ensures c == ONES - OnesSum(Total(buf, saddr, daddr, little))
  {
    var sum := SumWords(buf, beyond, little);
    SumBound(buf, little);
    PseudoSum(saddr, daddr, |buf|, little);
    sum := AddPseudo(sum, Read32(saddr, little), Read32(daddr, little), |buf|, little);
    c := FoldTwice(sum);
  }

  /** Lines 135-138. */
  method AddPseudo(sum0: u32, saddr: u32, daddr: u32, len: nat, little: bool) returns (sum: u32)
    requires sum0 <= 0x8000 * ONES && len < 0x1_0000
    ensures sum == sum0 + saddr % 0x1_0000 + saddr / 0x1_0000 + daddr % 0x1_0000 + daddr / 0x1_0000 +
      Htons(len, little) + Htons(PROTO_TCP, little)
  {
    hide Wrap;
    assert Htons(len, little) < 0x1_0000 && Htons(PROTO_TCP, little) < 0x1_0000;
    hide Htons;
    sum := Add32(sum0, saddr % 0x1_0000 + saddr / 0x1_0000);
    sum := Add32(sum, daddr % 0x1_0000 + daddr / 0x1_0000);
    sum := Add32(sum, Htons(len, little));
    sum := Add32(sum, Htons(PROTO_TCP, little));
  }

  lemma PaddedByte(b: byte, beyond: byte, little: bool)
    ensures FirstByte(Word(b, beyond, little), little) == Word(b, 0, little)
  {}

  /** Lines 120-132. */
  method SumWords(buf: seq<byte>, beyond: byte, little: bool) returns (sum: u32)
    requires |buf| < 0x1_0000
    ensures sum == WordSum(buf, little)
  {
    hide Wrap, Word;
    sum := 0;
    var nleft, w := |buf|, 0;
    SumBound(buf, little);
    while nleft > 1
      invariant 0 <= nleft && w + nleft == |buf|
      invariant sum + WordSum(buf[w..], little) == WordSum(buf, little)
    {
      assert buf[w..][2..] == buf[w + 2..];
      sum := Add32(sum, Word(buf[w], buf[w + 1], little));
      w := w + 2;
      nleft := nleft - 2;
    }
    if nleft != 0 {
      PaddedByte(buf[w], beyond, little);
      assert |buf[w..]| == 1;
      sum := Add32(sum, FirstByte(Word(buf[w], beyond, little), little));
    }
  }

  /** Lines 140-145: two folds are enough for any 32-bit sum. */
  method FoldTwice(sum0: u32) returns (c: nat)
    ensures c == ONES - OnesSum(sum0)
  {
    var sum := sum0 / 0x1_0000 + sum0 % 0x1_0000;
    ghost var once := sum;
    sum := Wrap(sum + sum / 0x1_0000);
    assert sum % 0x1_0000 == OnesSum(sum0) by {
      FoldKeepsResidue(sum0, once);
    }
    c := ONES - sum % 0x1_0000;
  }

  lemma FoldKeepsResidue(x: nat, y: nat)
    requires x < TWO32 && y == x / 0x1_0000 + x % 0x1_0000
    ensures OnesSum(x) == if y < 0x1_0000 then y else y - ONES
  {
    if x > 0 {
      assert x == y + x / 0x1_0000 * ONES;
      OnesSumShift(y, x / 0x1_0000);
    }
  }

  lemma OnesSumShift(y: nat, k: nat)
    requires y > 0
    ensures OnesSum(y + k * ONES) == OnesSum(y)
  {}

  /** The verifier finds 0 exactly if something was summed and the sum is a multiple of 65535. */
  lemma VerifiesIff(x: nat)
    ensures ONES - OnesSum(x) == 0 <==> x > 0 && x % ONES == 0
  {}

  /** A segment with the word `c` of the sender's byte order stored at offset `at`. */
  ghost function WithWord(buf: seq<byte>, at: nat, c: nat, little: bool): seq<byte>
    requires at + 2 <= |buf| && c < 0x1_0000
  {
    buf[..at] + (if little then [c % 256, c / 256] else [c / 256, c % 256]) + buf[at + 2..]
  }

  lemma WordStored(buf: seq<byte>, at: nat, c: nat, little: bool)
    requires at % 2 == 0 && at + 2 <= |buf| && c < 0x1_0000
    ensures WordSum(WithWord(buf, at, c, little), little) ==
      WordSum(buf[..at], little) + c + WordSum(buf[at + 2..], little)
  {
    var w: seq<byte> := if little then [c % 256, c / 256] else [c / 256, c % 256];
    SumConcat(buf[..at] + w, buf[at + 2..], little);
    SumConcat(buf[..at], w, little);
    TwoBytes(w, little);
  }

  ghost function FirstBytes(b: seq<byte>): nat {
    if |b| == 0 then 0 else if |b| == 1 then b[0] else b[0] + FirstBytes(b[2..])
  }

  /** The sum in one byte order is 256 times the sum in the other, modulo 65535. */
  lemma {:induction false} OrdersAgree(b: seq<byte>)
    ensures 256 * WordSum(b, false) == WordSum(b, true) + ONES * FirstBytes(b)
    ensures WordSum(b, false) == 0 <==> WordSum(b, true) == 0
  {
    if |b| > 1 {
      OrdersAgree(b[2..]);
    }
  }

  lemma MultiplesAgree(x: nat, y: nat, k: nat)
    requires 256 * x == y + ONES * k
    ensures x % ONES == 0 <==> y % ONES == 0
  {
    var q, r := x / ONES, y / ONES;
    assert x == q * ONES + x % ONES;
    assert y == r * ONES + y % ONES;
    if x % ONES == 0 {
      assert y == (256 * q - k) * ONES;
    }
    if y % ONES == 0 {
      assert x == (256 * (r + k) - x) * ONES;
    }
  }

  /** The check field: bytes 16 and 17 of the TCP header (section 3.1 of RFC 9293). */
  const CHECK := 16

  /** Round trip: the value computed over a zero check field, stored there, makes the receiver's
      computation come out as 0, for every segment of even or odd length, whatever lies behind
      its end, and for either byte order on either side. */
  lemma RoundTrip(buf: seq<byte>, saddr: seq<byte>, daddr: seq<byte>, sender: bool, receiver: bool)
    requires |saddr| == |daddr| == 4 && CHECK + 2 <= |buf| < 0x1_0000
    ensures var zero := WithWord(buf, CHECK, 0, sender);
      var c := ONES - OnesSum(Total(zero, saddr, daddr, sender));
      0 <= c <= ONES && ONES - OnesSum(Total(WithWord(buf, CHECK, c, sender), saddr, daddr, receiver)) == 0
  {
    hide WordSum, OnesSum;
    var zero := WithWord(buf, CHECK, 0, sender);
    var s := Total(zero, saddr, daddr, sender);
    var c := ONES - OnesSum(s);
    OnesSumFits(s);
    var sent := WithWord(buf, CHECK, c, sender);
    WordStored(buf, CHECK, 0, sender);
    WordStored(buf, CHECK, c, sender);
    assert Total(sent, saddr, daddr, sender) == s + c;
    SumsToOnes(s, c);
    if sender != receiver {
      var pseudo := PseudoHeader(saddr, daddr, |buf|);
      Across(sent, pseudo, sender);
    }
    VerifiesIff(Total(sent, saddr, daddr, receiver));
  }

  lemma OnesSumFits(x: nat)
    ensures 0 <= OnesSum(x) <= ONES
  {}

  lemma SumsToOnes(s: nat, c: nat)
    requires c == ONES - OnesSum(s)
    ensures s + c > 0 && (s + c) % ONES == 0
  {}

  lemma Across(a: seq<byte>, b: seq<byte>, little: bool)
    requires WordSum(a, little) + WordSum(b, little) > 0 && (WordSum(a, little) + WordSum(b, little)) % ONES == 0
    ensures WordSum(a, !little) + WordSum(b, !little) > 0 && (WordSum(a, !little) + WordSum(b, !little)) % ONES == 0
  {
    OrdersAgree(a);
    OrdersAgree(b);
    var x, y := WordSum(a, false) + WordSum(b, false), WordSum(a, true) + WordSum(b, true);
    MultiplesAgree(x, y, FirstBytes(a) + FirstBytes(b));
  }
}
