/** The Internet checksum (RFC 1071) as the daemon and its tools compute it. */
module Checksum {
  import opened Protocol

  /** The width of C's `long`, the type of the running sum. */
  datatype LongWidth = Bits32 | Bits64

  const TWO31: int := 0x8000_0000
  const ONES: int := 0xffff

  /** The little-endian word of two bytes. */
  function Pair(low: int, high: int): int {
    low + 256 * high
  }

  /** The sum of the 16-bit little-endian words; an odd last byte counts as a word of its own. */
  function WordSum(d: seq<Byte>): nat {
    if |d| == 0 then 0 else if |d| == 1 then d[0] else Pair(d[0], d[1]) + WordSum(d[2..])
  }

  /** One's-complement addition: the carry out of bit 15 goes around into bit 0. */
  function OnesAdd(a: nat, b: nat): (s: nat)
    requires a <= ONES && b <= ONES
    ensures s <= ONES
  {
    if a + b > ONES then a + b - ONES else a + b
  }

  function OnesSum(d: seq<Byte>): (s: nat)
    ensures s <= ONES
  {
    if |d| == 0 then 0 else if |d| == 1 then d[0] else OnesAdd(Pair(d[0], d[1]), OnesSum(d[2..]))
  }

  /** The checksum of section 1 of RFC 1071. */
  function Check(d: seq<Byte>): int {
    ONES - OnesSum(d)
  }

  /** One's-complement addition is addition modulo 65535 in which only a zero sum is zero. */
  lemma {:induction false} OnesSumIsResidue(d: seq<Byte>) returns (k: nat)
    ensures WordSum(d) == OnesSum(d) + ONES * k
    ensures OnesSum(d) == 0 <==> WordSum(d) == 0
    decreases d
  {
    if |d| <= 1 {
      k := 0;
    } else {
      var k' := OnesSumIsResidue(d[2..]);
      k := if Pair(d[0], d[1]) + OnesSum(d[2..]) > ONES then k' + 1 else k';
    }
  }

  /** The value C stores for x in a signed integer of the given width. */
  function Stored(long: LongWidth, x: int): int
    requires -TWO31 <= x < 2 * TWO31
  {
    if long == Bits32 && x >= TWO31 then x - 2 * TWO31 else x
  }

  predicate HighBit(sum: int) {
    sum < 0 || sum >= TWO31
  }

  /** `(sum & 0xFFFF) + (sum >> 16)`, with the arithmetic shift. */
  function Fold(sum: int): int {
    sum % 0x1_0000 + sum / 0x1_0000
  }

  /** What the running sum has lost against the plain sum `total`: multiples of 65535 by folding,
      and one more for each overflow. An overflow is only reached by summing to 2^31 again, which
      bounds how many of them an `int` length allows. */
  ghost predicate Tracked(long: LongWidth, sum: int, total: int, folded: int, wraps: int) {
    && total == sum + ONES * folded + wraps
    && 0 <= wraps && -0x8000 <= sum < TWO31
    && (long == Bits64 ==> wraps == 0)
    && (wraps == 0 ==> sum >= 0 && (sum == 0 <==> total == 0))
    && (long == Bits32 && wraps == 0 ==> sum == total)
    && (wraps > 0 ==> total >= TWO31)
    && sum + (if sum < 0 then ONES else 0) + wraps * 0x7fff_8001 <= total
  }

  lemma WordTracked(long: LongWidth, sum: int, word: int, total: int, folded: int, wraps: int)
    returns (folded': int, wraps': int)
    requires Tracked(long, sum, total, folded, wraps) && 0 <= word <= ONES
    ensures
      var s := Stored(long, sum + word);
      Tracked(long, if HighBit(s) then Fold(s) else s, total + word, folded', wraps')
  {
    var s := Stored(long, sum + word);
    folded', wraps' := folded, wraps;
    if s != sum + word {
      folded', wraps' := folded + 0x1_0001, wraps + 1;
    }
    if HighBit(s) {
      folded' := folded' + s / 0x1_0000;
    }
  }

  /** What is known once the last byte is added: few overflows, and none if the sum stayed small. */
  ghost predicate Summed(long: LongWidth, sum: int, total: int, folded: int, wraps: int) {
    && -TWO31 <= sum < TWO31 + 0x100
    && total == sum + ONES * folded + wraps
    && 0 <= wraps < ONES
    && (wraps == 0 ==> sum >= 0 && (sum == 0 <==> total == 0))
    && (long == Bits64 ==> wraps == 0)
    && (long == Bits32 ==> (wraps == 0 <==> total < TWO31))
  }

  lemma LastByteTracked(long: LongWidth, sum: int, last: int, total: int, folded: int, wraps: int)
    returns (folded': int, wraps': int)
    requires Tracked(long, sum, total, folded, wraps) && 0 <= last < 256
    requires 2 * total <= ONES * INT_MAX
    ensures Summed(long, Stored(long, sum + last), total + last, folded', wraps')
  {
    folded', wraps' := folded, wraps;
    if Stored(long, sum + last) != sum + last {
      folded', wraps' := folded + 0x1_0001, wraps + 1;
    }
  }

  lemma FoldKeepsResidue(long: LongWidth, sum: int, total: int, folded: int, wraps: int)
    requires Summed(long, sum, total, folded, wraps) && sum / 0x1_0000 != 0
    ensures Summed(long, Fold(sum), total, folded + sum / 0x1_0000, wraps)
    ensures sum < 0 ==> sum < Fold(sum) <= ONES
    ensures sum >= 0 ==> 0 <= Fold(sum) < sum
  {
  }

  lemma WordSumUnrolls(d: seq<Byte>, at: nat)
    requires at <= |d|
    ensures WordSum(d[at..]) ==
      if at == |d| then 0 else if at + 1 == |d| then d[at] else Pair(d[at], d[at + 1]) + WordSum(d[at + 2..])
  {
    if at + 1 < |d| {
      assert d[at..][2..] == d[at + 2..];
    }
  }

  /** With a 64-bit `long` the result is the checksum of every byte string. With the 32-bit
      `long` that the code's comment assumes, the addition overflows before the early fold can
      see the high bit, and the result is right exactly when the plain sum stays below 2^31. */
  method ComputeChecksum(data: array<Byte>, long: LongWidth) returns (c: int)
    requires data.Length <= INT_MAX
    ensures 0 <= c <= ONES
    ensures long == Bits64 ==> c == Check(data[..])
    ensures long == Bits32 ==> (c == Check(data[..]) <==> WordSum(data[..]) < TWO31)
  {
    var sum, len, temp := 0, data.Length, 0;
    ghost var d, total, folded, wraps := data[..], 0, 0, 0;
    assert d[0..] == d;
    while len > 1
      invariant 0 <= temp && 0 <= len == data.Length - temp && temp % 2 == 0
      invariant total + WordSum(d[temp..]) == WordSum(d)
      invariant 0 <= 2 * total <= ONES * temp
      invariant Tracked(long, sum, total, folded, wraps)
    {
      WordSumUnrolls(d, temp);
      var word := Pair(data[temp], data[temp + 1]);
      folded, wraps := WordTracked(long, sum, word, total, folded, wraps);
      total := total + word;
      sum := Stored(long, sum + word);
      if HighBit(sum) {
        sum := Fold(sum);
      }
      temp, len := temp + 2, len - 2;
    }
    ghost var last := if len != 0 then data[temp] else 0;
    WordSumUnrolls(d, temp);
    folded, wraps := LastByteTracked(long, sum, last, total, folded, wraps);
    if len != 0 {
      sum := Stored(long, sum + data[temp]);
    }
    total := total + last;
    while sum / 0x1_0000 != 0
      invariant Summed(long, sum, total, folded, wraps)
      decreases if sum < 0 then 0x2_0000 - sum else sum
    {
      FoldKeepsResidue(long, sum, total, folded, wraps);
      folded := folded + sum / 0x1_0000;
      sum := Fold(sum);
    }
    c := ONES - sum;
    ghost var k := OnesSumIsResidue(d);
    SameResidue(sum, OnesSum(d), folded, k, wraps);
  }

  lemma SameResidue(a: int, b: int, j: int, k: int, wraps: int)
    requires 0 <= a <= ONES && 0 <= b <= ONES && 0 <= wraps < ONES
    requires a + ONES * j + wraps == b + ONES * k
    requires wraps == 0 ==> (a == 0 <==> b == 0)
    ensures a == b <==> wraps == 0
  {
  }

  // ----- Storing and verifying -----

  function Word(d: seq<Byte>, at: nat): int
    requires at + 1 < |d|
  {
    Pair(d[at], d[at + 1])
  }

  function WithWord(d: seq<Byte>, at: nat, w: nat): seq<Byte>
    requires at + 1 < |d| && w <= ONES
  {
    d[at := w % 256][at + 1 := w / 256]
  }

  lemma {:induction false} WordSumWithWord(d: seq<Byte>, at: nat, w: nat)
    requires at % 2 == 0 && at + 1 < |d| && w <= ONES
    ensures WordSum(WithWord(d, at, w)) == WordSum(d) - Word(d, at) + w
    decreases d
  {
    if at == 0 {
      assert WithWord(d, 0, w)[2..] == d[2..];
    } else {
      WordSumWithWord(d[2..], at - 2, w);
      assert WithWord(d, at, w)[2..] == WithWord(d[2..], at - 2, w);
    }
  }

  lemma {:induction false} WordSumBound(d: seq<Byte>)
    ensures 2 * WordSum(d) <= ONES * (|d| + 1)
    decreases d
  {
    if |d| > 1 {
      WordSumBound(d[2..]);
    }
  }

  /** Zero the checksum word of a packet, compute, store: the packet then verifies. The sum of a
      packet whose length fits 16 bits stays below 2^31, so the width of `long` does not matter. */
  method Seal(packet: array<Byte>, at: nat, long: LongWidth)
    requires packet.Length <= 0xffff && at % 2 == 0 && at + 1 < packet.Length
    modifies packet
    ensures exists w: nat :: w <= ONES && packet[..] == WithWord(old(packet[..]), at, w)
    ensures Check(packet[..]) == 0
  {
    ghost var before := packet[..];
    packet[at], packet[at + 1] := 0, 0;
    ghost var zeroed := packet[..];
    WordSumBound(zeroed);
    var c := ComputeChecksum(packet, long);
    packet[at], packet[at + 1] := c % 256, c / 256;
    assert packet[..] == WithWord(before, at, c) == WithWord(zeroed, at, c);
    SealedVerifies(zeroed, at);
  }

  lemma SealedVerifies(zeroed: seq<Byte>, at: nat)
    requires at % 2 == 0 && at + 1 < |zeroed| && Word(zeroed, at) == 0
    ensures Check(WithWord(zeroed, at, Check(zeroed))) == 0
  {
    var sealed := WithWord(zeroed, at, Check(zeroed));
    WordSumWithWord(zeroed, at, Check(zeroed));
    var j := OnesSumIsResidue(zeroed);
    var k := OnesSumIsResidue(sealed);
    FullSum(j, OnesSum(sealed), k);
  }

  lemma FullSum(j: nat, sum: int, k: nat)
    requires 0 <= sum <= ONES && ONES + ONES * j == sum + ONES * k && sum != 0
    ensures sum == ONES
  {
  }

  lemma FullResidues(rest: int, v: int, w: int, j: nat, sum: int, k: nat)
    requires 0 <= rest && 0 <= v <= ONES && 0 <= w <= ONES && v != w && 0 <= sum <= ONES
    requires rest + v == ONES + ONES * j && rest + w == sum + ONES * k
    requires sum == 0 <==> rest + w == 0
    ensures sum == ONES <==> ((w == 0 && v == ONES) || (w == ONES && v == 0)) && rest > 0
  {
    assert v - w == ONES * (1 + j - k) - sum;
  }

  /** A verified packet in which one aligned word is replaced by another fails to verify, except
      when one of the two is 0x0000, the other 0xFFFF, and the packet has some other nonzero byte. */
  lemma ReplacedWordIsDetected(d: seq<Byte>, at: nat, w: nat)
    requires Check(d) == 0
    requires at % 2 == 0 && at + 1 < |d| && w <= ONES && w != Word(d, at)
    ensures Check(WithWord(d, at, w)) == 0 <==>
      && ((w == 0 && Word(d, at) == ONES) || (w == ONES && Word(d, at) == 0))
      && WordSum(WithWord(d, at, 0)) > 0
  {
    WordSumWithWord(d, at, w);
    WordSumWithWord(d, at, 0);
    var j := OnesSumIsResidue(d);
    var k := OnesSumIsResidue(WithWord(d, at, w));
    FullResidues(WordSum(d) - Word(d, at), Word(d, at), w, j, OnesSum(WithWord(d, at, w)), k);
  }

  /** The VRRP packet of the traffic generator: ten bytes, one of them alignment padding, with the
      checksum in the last word. */
  method CreateVrrpPacket(padding: Byte, long: LongWidth) returns (packet: array<Byte>)
    ensures fresh(packet) && packet.Length == 10
    ensures packet[..8] == [2, 1, 10, 100, 10, 0, 1, padding]
    ensures Check(packet[..]) == 0
  {
    packet := new Byte[10] [2, 1, 10, 100, 10, 0, 1, padding, 0, 0];
    Seal(packet, 8, long);
  }
}
