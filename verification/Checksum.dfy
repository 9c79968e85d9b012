/**
 The Internet checksum: the program's unrolled little-endian loop against the plain
 big-endian one's-complement sum of RFC 1071.
 */
module Checksum {
  import opened Bytes

  const ONES := 65535

  type u16 = x: int | 0 <= x < 0x1_0000
  type u64 = x: int | 0 <= x < 0x1_0000_0000_0000_0000

  /** Below these bounds no 64-bit accumulator can overflow. */
  const MAX_LENGTH := 0x4_0000_0000
  const MAX_PSEUDO := 0xFFFF_FFFF_FFF0_0000

  /** The i-th byte as an integer. */
  function Octet(d: seq<byte>, i: nat): nat
    requires i < |d|
    ensures Octet(d, i) < 256
  {
    d[i]
  }

  function Be16(d: seq<byte>, i: nat): (w: u16)
    requires i + 2 <= |d|
  {
    Octet(d, i) * 256 + Octet(d, i + 1)
  }

  function Le32(d: seq<byte>, i: nat): nat
    requires i + 4 <= |d|
  {
    Octet(d, i) + Octet(d, i + 1) * 0x100 + Octet(d, i + 2) * 0x1_0000 + Octet(d, i + 3) * 0x100_0000
  }

  function Le64(d: seq<byte>, i: nat): u64
    requires i + 8 <= |d|
  {
    Le32(d, i) + Le32(d, i + 4) * 0x1_0000_0000
  }

  /** `(w & 0xFFFFFFFF) + (w >> 32)`. */
  function Halves(w: u64): u64 {
    w % 0x1_0000_0000 + w / 0x1_0000_0000
  }

  /** Sum of the big-endian 16-bit words among the first `n` bytes. */
  function WordsUpTo(d: seq<byte>, n: nat): nat
    requires n <= |d|
  {
    if n < 2 then 0 else WordsUpTo(d, n - 2) + Be16(d, n - 2)
  }

  /** RFC 1071, section 1: the sum of the 16-bit words, an odd last byte padded with zero. */
  function WordSum(d: seq<byte>): nat {
    if |d| % 2 == 0 then WordsUpTo(d, |d|)
    else WordsUpTo(d, |d| - 1) + Octet(d, |d| - 1) * 256
  }

  /** Sum of the little-endian 32-bit words among the first `n` bytes. */
  function LittleUpTo(d: seq<byte>, n: nat): nat
    requires n <= |d|
  {
    if n < 4 then 0 else LittleUpTo(d, n - 4) + Le32(d, n - 4)
  }

  /** The 16-bit end-around-carry value of a sum: zero only for zero, else in 1..65535. */
  function OnesValue(x: nat): u16 {
    if x == 0 then 0 else 1 + (x - 1) % ONES
  }

  /** 16-bit addition with end-around carry. */
  function OnesAdd(x: u16, y: u16): u16 {
    if x + y < 0x1_0000 then x + y else x + y - ONES
  }

  /** The running one's-complement sum, one word at a time. */
  function OnesUpTo(d: seq<byte>, n: nat, start: u16): u16
    requires n <= |d|
  {
    if n < 2 then start else OnesAdd(OnesUpTo(d, n - 2, start), Be16(d, n - 2))
  }

  function OnesSum(d: seq<byte>, start: u16): u16 {
    if |d| % 2 == 0 then OnesUpTo(d, |d|, start)
    else OnesAdd(OnesUpTo(d, |d| - 1, start), Octet(d, |d| - 1) * 256)
  }

  /** The checksum is right: one's-complement sum 0xFFFF, told from the plain integer sum. */
  predicate Holds(d: seq<byte>, pseudo: nat) {
    pseudo + WordSum(d) > 0 && (pseudo + WordSum(d)) % ONES == 0
  }

  /** `bswap16`. */
  function Bswap16(x: u16): u16 {
    x / 256 + x % 256 * 256
  }

  lemma MultiplesVanish(x: int, k: int)
    ensures (x + ONES * k) % ONES == x % ONES
  {
  }

  /** Swapping the bytes of a 16-bit value multiplies it by 256 in one's complement. */
  lemma SwapIsTimes256(x: u16)
    ensures Bswap16(x) % ONES == 256 * x % ONES
    ensures Bswap16(x) == 0 <==> x == 0
  {
    assert 256 * x == Bswap16(x) + ONES * (x / 256);
    MultiplesVanish(Bswap16(x), x / 256);
  }

  /** How far 256 times the little-endian sum exceeds the big-endian one: a multiple of 65535. */
  lemma {:induction false} LittleIsSwappedBig(d: seq<byte>, n: nat)
    requires n <= |d| && n % 4 == 0
    ensures 256 * LittleUpTo(d, n) % ONES == WordsUpTo(d, n) % ONES
    ensures LittleUpTo(d, n) == 0 <==> WordsUpTo(d, n) == 0
  {
    if n >= 4 {
      LittleIsSwappedBig(d, n - 4);
      var k := Octet(d, n - 3) + 256 * Octet(d, n - 2) + 65537 * Octet(d, n - 1);
      assert WordsUpTo(d, n) == WordsUpTo(d, n - 4) + Be16(d, n - 4) + Be16(d, n - 2);
      assert 256 * Le32(d, n - 4) == Be16(d, n - 4) + Be16(d, n - 2) + ONES * k;
      var words := Be16(d, n - 4) + Be16(d, n - 2);
      AddCongruent(256 * LittleUpTo(d, n - 4), WordsUpTo(d, n - 4), words);
      MultiplesVanish(256 * LittleUpTo(d, n - 4) + words, k);
    }
  }

  lemma AddCongruent(x: int, y: int, z: int)
    requires x % ONES == y % ONES
    ensures (x + z) % ONES == (y + z) % ONES
  {
    var k := x / ONES - y / ONES;
    assert x + z == y + z + ONES * k;
    MultiplesVanish(y + z, k);
  }

  /** The folding loop: adds the carries back until 16 bits are left. */
  method Fold(x: u64) returns (r: u16)
    ensures SameOnes(r, x)
  {
    var s: u64 := x;
    while s / 0x1_0000 != 0
      invariant s % ONES == x % ONES && (s == 0 <==> x == 0)
      decreases s
    {
      MultiplesVanish(s % 0x1_0000 + s / 0x1_0000, s / 0x1_0000);
      s := s % 0x1_0000 + s / 0x1_0000;
    }
    r := s;
  }

  /** The two word loops: four 64-bit accumulators over 32 bytes at a time, then 32-bit words. */
  method SumLittleEndian(data: seq<byte>) returns (swapped: u64, i: nat)
    requires |data| <= MAX_LENGTH
    ensures i <= |data| < i + 4 && i % 4 == 0 && swapped == LittleUpTo(data, i)
  {
    hide LittleUpTo, Le32, Le64, Halves;
    var a: u64, b: u64, c: u64, d: u64 := 0, 0, 0, 0;
    i := 0;
    NothingSummed(data);
    while i + 32 <= |data|
      invariant i <= |data| && i % 4 == 0
      invariant 16 * a <= i * 0xFFFF_FFFF && 16 * b <= i * 0xFFFF_FFFF
      invariant 16 * c <= i * 0xFFFF_FFFF && 16 * d <= i * 0xFFFF_FFFF
      invariant a + b + c + d == LittleUpTo(data, i)
    {
      var w0, w1, w2, w3 := Le64(data, i), Le64(data, i + 8), Le64(data, i + 16), Le64(data, i + 24);
      LittleOver32(data, i);
      a := a + Halves(w0);
      b := b + Halves(w1);
      c := c + Halves(w2);
      d := d + Halves(w3);
      i := i + 32;
    }
    swapped := a + b + c + d;
    while i + 4 <= |data|
      invariant i <= |data| && i % 4 == 0
      invariant 4 * swapped <= i * 0xFFFF_FFFF
      invariant swapped == LittleUpTo(data, i)
    {
      LittleStep(data, i);
      swapped := swapped + Le32(data, i);
      i := i + 4;
    }
  }

  method VerifyChecksum(data: seq<byte>, pseudoHeaderSum: u64) returns (ok: bool)
    requires |data| <= MAX_LENGTH && pseudoHeaderSum <= MAX_PSEUDO
    ensures ok <==> Holds(data, pseudoHeaderSum)
    ensures ok <==> OnesSum(data, OnesValue(pseudoHeaderSum)) == 0xFFFF
  {
    hide Bswap16, LittleUpTo, OnesSum, OnesValue, SameOnes, WordsUpTo, WordSum, Be16, Holds;
    var swapped, i := SumLittleEndian(data);
    ghost var words := i;
    var folded := Fold(swapped);
    HeadIsRight(data, i, swapped, folded, pseudoHeaderSum);
    var sum: u64 := pseudoHeaderSum + Bswap16(folded);
    while i + 2 <= |data|
      invariant i == words || i == words + 2
      invariant i <= |data|
      invariant sum <= pseudoHeaderSum + 0x1_0000 + (i - words) * 0x1_0000
      invariant SameOnes(sum, pseudoHeaderSum + WordsUpTo(data, i))
    {
      WordStep(data, i, sum, pseudoHeaderSum);
      sum := sum + Be16(data, i);
      i := i + 2;
    }
    WordsAreEven(i, words);
    LastByteCompletes(data, i);
    if i < |data| {
      SameOnesAdd(sum, pseudoHeaderSum + WordsUpTo(data, i), Octet(data, i) * 256);
      sum := sum + Octet(data, i) * 256;
    }
    var last := Fold(sum);
    ok := 0xFFFF - last == 0;
    AllOnesIffHolds(data, pseudoHeaderSum, sum, last);
    OnesSumIsOnesValue(data, pseudoHeaderSum);
  }

  lemma WordStep(d: seq<byte>, i: nat, sum: nat, pseudo: nat)
    requires i + 2 <= |d| && SameOnes(sum, pseudo + WordsUpTo(d, i))
    ensures SameOnes(sum + Be16(d, i), pseudo + WordsUpTo(d, i + 2))
  {
    SameOnesAdd(sum, pseudo + WordsUpTo(d, i), Be16(d, i));
  }

  lemma WordsAreEven(i: nat, words: nat)
    requires words % 4 == 0 && (i == words || i == words + 2)
    ensures i % 2 == 0
  {
    var k := words / 4;
    assert words == 4 * k;
    TwiceIsEven(2 * k);
    TwiceIsEven(2 * k + 1);
  }

  lemma TwiceIsEven(k: nat)
    ensures 2 * k % 2 == 0
  {
  }

  lemma LastByteCompletes(d: seq<byte>, i: nat)
    requires i % 2 == 0 && i <= |d| < i + 2
    ensures WordSum(d) == WordsUpTo(d, i) + if i < |d| then Octet(d, i) * 256 else 0
  {
    hide WordsUpTo, Octet;
  }

  lemma AllOnesIffHolds(d: seq<byte>, pseudo: nat, sum: nat, last: u16)
    requires SameOnes(sum, pseudo + WordSum(d)) && SameOnes(last, sum)
    ensures last == 0xFFFF <==> Holds(d, pseudo)
  {
    hide WordSum;
  }

  /** Two sums that one's-complement arithmetic cannot tell apart. */
  predicate SameOnes(x: nat, y: nat) {
    x % ONES == y % ONES && (x == 0 <==> y == 0)
  }

  lemma SameOnesAdd(x: nat, y: nat, z: nat)
    requires SameOnes(x, y)
    ensures SameOnes(x + z, y + z)
  {
    AddCongruent(x, y, z);
  }

  /** Folding and then swapping once gives the big-endian sum of the words read so far. */
  lemma HeadIsRight(d: seq<byte>, n: nat, swapped: nat, folded: u16, pseudo: nat)
    requires n <= |d| && n % 4 == 0 && swapped == LittleUpTo(d, n)
    requires SameOnes(folded, swapped)
    ensures SameOnes(pseudo + Bswap16(folded), pseudo + WordsUpTo(d, n))
  {
    hide LittleUpTo, WordsUpTo;
    SwapIsTimes256(folded);
    TimesCongruent(folded, swapped);
    LittleIsSwappedBig(d, n);
    AddCongruent(Bswap16(folded), WordsUpTo(d, n), pseudo);
  }

  lemma SplitHalves(d: seq<byte>, i: nat)
    requires i + 8 <= |d|
    ensures Halves(Le64(d, i)) == Le32(d, i) + Le32(d, i + 4) <= 2 * 0xFFFF_FFFF
  {
  }

  lemma NothingSummed(d: seq<byte>)
    ensures LittleUpTo(d, 0) == 0
  {
  }

  lemma LittleStep(d: seq<byte>, i: nat)
    requires i + 4 <= |d|
    ensures LittleUpTo(d, i + 4) == LittleUpTo(d, i) + Le32(d, i) && Le32(d, i) <= 0xFFFF_FFFF
  {
  }

  lemma LittleOver32(d: seq<byte>, i: nat)
    requires i + 32 <= |d|
    ensures LittleUpTo(d, i + 32) == LittleUpTo(d, i)
      + Halves(Le64(d, i)) + Halves(Le64(d, i + 8)) + Halves(Le64(d, i + 16)) + Halves(Le64(d, i + 24))
    ensures Halves(Le64(d, i)) <= 2 * 0xFFFF_FFFF && Halves(Le64(d, i + 8)) <= 2 * 0xFFFF_FFFF
    ensures Halves(Le64(d, i + 16)) <= 2 * 0xFFFF_FFFF && Halves(Le64(d, i + 24)) <= 2 * 0xFFFF_FFFF
  {
    hide Le32, Le64, Halves;
    SplitHalves(d, i);
    SplitHalves(d, i + 8);
    SplitHalves(d, i + 16);
    SplitHalves(d, i + 24);
    assert LittleUpTo(d, i + 8) == LittleUpTo(d, i) + Le32(d, i) + Le32(d, i + 4);
    assert LittleUpTo(d, i + 16) == LittleUpTo(d, i + 8) + Le32(d, i + 8) + Le32(d, i + 12);
    assert LittleUpTo(d, i + 24) == LittleUpTo(d, i + 16) + Le32(d, i + 16) + Le32(d, i + 20);
  }

  lemma TimesCongruent(x: int, y: int)
    requires x % ONES == y % ONES
    ensures 256 * x % ONES == 256 * y % ONES
  {
    var k := x / ONES - y / ONES;
    assert 256 * x == 256 * y + ONES * (256 * k);
    MultiplesVanish(256 * y, 256 * k);
  }

  /** End-around addition is addition of integers, reduced. */
  lemma OnesAddIsSum(x: nat, y: nat)
    ensures OnesAdd(OnesValue(x), OnesValue(y)) == OnesValue(x + y)
  {
    var a, b := OnesValue(x), OnesValue(y);
    var j := OnesValueCongruent(x);
    var k := OnesValueCongruent(y);
    OnesValueUnique(x + y, OnesAdd(a, b), if a as int + b as int < 0x1_0000 then j + k else j + k + 1);
  }

  lemma OnesValueCongruent(x: nat) returns (k: int)
    ensures x == OnesValue(x) + ONES * k
    ensures OnesValue(x) == 0 <==> x == 0
  {
    k := if x == 0 then 0 else (x - 1) / ONES;
  }

  lemma OnesValueUnique(x: nat, v: u16, k: int)
    requires v == 0 <==> x == 0
    requires x == v + ONES * k
    ensures v == OnesValue(x)
  {
    if x > 0 {
      MultiplesVanish(v - 1, k);
    }
  }

  lemma OnesValueOfSmall(x: u16)
    ensures OnesValue(x) == x
  {
  }

  lemma AllOnesValue(x: nat)
    ensures OnesValue(x) == 0xFFFF <==> x > 0 && x % ONES == 0
  {
    if x > 0 && x % ONES == 0 {
      assert x - 1 == ONES - 1 + ONES * (x / ONES - 1);
      MultiplesVanish(ONES - 1, x / ONES - 1);
    }
    if OnesValue(x) == 0xFFFF {
      assert x == ONES * ((x - 1) / ONES + 1);
      MultiplesVanish(0, (x - 1) / ONES + 1);
    }
  }

  lemma {:induction false} OnesUpToIsOnesValue(d: seq<byte>, n: nat, pseudo: nat)
    requires n <= |d| && n % 2 == 0
    ensures OnesUpTo(d, n, OnesValue(pseudo)) == OnesValue(pseudo + WordsUpTo(d, n))
  {
    hide OnesValue, OnesAdd, Be16;
    if n < 2 {
      assert WordsUpTo(d, n) == 0;
    } else {
      OnesValueOfSmall(Be16(d, n - 2));
      OnesUpToIsOnesValue(d, n - 2, pseudo);
      OnesAddIsSum(pseudo + WordsUpTo(d, n - 2), Be16(d, n - 2));
    }
  }

  /** The word-by-word one's-complement sum is the integer sum, reduced once at the end. */
  lemma OnesSumIsOnesValue(d: seq<byte>, pseudo: nat)
    ensures OnesSum(d, OnesValue(pseudo)) == OnesValue(pseudo + WordSum(d))
    ensures Holds(d, pseudo) <==> OnesSum(d, OnesValue(pseudo)) == 0xFFFF
  {
    hide OnesValue, OnesAdd, OnesUpTo, WordsUpTo;
    var n := if |d| % 2 == 0 then |d| else |d| - 1;
    OnesUpToIsOnesValue(d, n, pseudo);
    if |d| % 2 == 1 {
      OnesAddIsSum(pseudo + WordsUpTo(d, n), Octet(d, n) * 256);
      OnesValueOfSmall(Octet(d, n) * 256);
    }
    AllOnesValue(pseudo + WordSum(d));
  }

  /** The two bytes at `k` replaced by a 16-bit field, most significant byte first. */
  function WithField(d: seq<byte>, k: nat, field: u16): seq<byte>
    requires k + 2 <= |d|
  {
    d[k := field / 256][k + 1 := field % 256]
  }

  lemma {:induction false} WordsWithField(d: seq<byte>, k: nat, field: u16, n: nat)
    requires k % 2 == 0 && k + 2 <= |d| && n <= |d| && n % 2 == 0
    ensures WordsUpTo(WithField(d, k, field), n) ==
            WordsUpTo(d, n) + if k < n then field - Be16(d, k) else 0
  {
    if n >= 2 {
      WordsWithField(d, k, field, n - 2);
    }
  }

  lemma WordSumWithField(d: seq<byte>, k: nat, field: u16)
    requires k % 2 == 0 && k + 2 <= |d|
    ensures WordSum(WithField(d, k, field)) == WordSum(d) - Be16(d, k) + field
  {
    WordsWithField(d, k, field, if |d| % 2 == 0 then |d| else |d| - 1);
  }

  /**
   The sender's side: among all values of the checksum field, the complement of the
   one's-complement sum taken with the field zero is accepted, and any other accepted value
   is the other zero of one's-complement arithmetic.
   */
  lemma ComplementIsAccepted(d: seq<byte>, k: nat, pseudo: nat, field: u16)
    requires k % 2 == 0 && k + 2 <= |d| && Be16(d, k) == 0
    ensures var value := OnesValue(pseudo + WordSum(d));
      Holds(WithField(d, k, field), pseudo) <==>
      field == 0xFFFF - value || (value == 0xFFFF && field == 0xFFFF)
  {
    WordSumWithField(d, k, field);
    var total := pseudo + WordSum(d);
    var j := OnesValueCongruent(total);
    MultiplesVanish(OnesValue(total) + field, j);
  }

  /** Changing any single byte of an accepted buffer is always noticed. */
  lemma CorruptByteIsRejected(d: seq<byte>, i: nat, b: byte, pseudo: nat)
    requires i < |d| && b != d[i] && Holds(d, pseudo)
    ensures !Holds(d[i := b], pseudo)
  {
    var weight := if i % 2 == 0 then 256 else 1;
    WordSumWithByte(d, i, b);
    var change: int := (b as int - Octet(d, i)) * weight;
    var k := (pseudo + WordSum(d[i := b])) / ONES - (pseudo + WordSum(d)) / ONES;
    assert -ONES < change < ONES && change != 0;
    assert Holds(d[i := b], pseudo) ==> change == ONES * k;
  }

  lemma {:induction false} WordsWithByte(d: seq<byte>, i: nat, b: byte, n: nat)
    requires i < |d| && n <= |d| && n % 2 == 0
    ensures WordsUpTo(d[i := b], n) == WordsUpTo(d, n) +
              if i < n then (b as int - Octet(d, i)) * (if i % 2 == 0 then 256 else 1) else 0
  {
    if n >= 2 {
      WordsWithByte(d, i, b, n - 2);
    }
  }

  lemma WordSumWithByte(d: seq<byte>, i: nat, b: byte)
    requires i < |d|
    ensures WordSum(d[i := b]) == WordSum(d) + (b as int - Octet(d, i)) * (if i % 2 == 0 then 256 else 1)
  {
    WordsWithByte(d, i, b, if |d| % 2 == 0 then |d| else |d| - 1);
  }
}
