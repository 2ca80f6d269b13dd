/**
 Sixteen-bit words as vectors over GF(2). The operations are named so that a proof can
 hide them and reason about the vector space alone; the facts about them are checked here
 bit by bit. The constant 0xA001 is the reflected CRC-16 generator.
 */
module Words {
  type Byte = bv8

  function Sum(a: bv16, b: bv16): bv16 { a ^ b }

  function Twice(w: bv16): bv16 { w << 1 }

  function Wide(b: Byte): bv16 { b as bv16 }

  function Low(c: bv16): Byte { (c & 0xFF) as Byte }

  function High(c: bv16): Byte { (c >> 8) as Byte }

  // The low bit of a byte, and the byte without it.
  predicate Lsb(b: Byte) { b & 1 != 0 }

  function Rest(b: Byte): Byte { b >> 1 }

  // The low bit of a word, and the word without it.
  predicate IsOdd(c: bv16) { c & 1 != 0 }

  function Half(c: bv16): bv16 { c >> 1 }

  predicate TopClear(w: bv16) { w & 0x8000 == 0 }

  lemma SumZero(c: bv16)
    ensures Sum(c, 0) == c && Sum(0, c) == c && Sum(c, c) == 0
  {}

  lemma SumCancels(a: bv16, b: bv16)
    ensures Sum(a, b) == 0 <==> a == b
  {
    hide Sum;
    SumZero(a);
    SumZero(b);
    SumAssoc(a, b, b);
  }

  lemma SumComm(a: bv16, b: bv16)
    ensures Sum(a, b) == Sum(b, a)
  {}

  lemma SumAssoc(a: bv16, b: bv16, c: bv16)
    ensures Sum(Sum(a, b), c) == Sum(a, Sum(b, c))
  {}

  lemma SumSwap(a: bv16, b: bv16, c: bv16, d: bv16)
    ensures Sum(Sum(a, b), Sum(c, d)) == Sum(Sum(a, c), Sum(b, d))
  {
    hide Sum;
    SumAssoc(a, b, Sum(c, d));
    SumAssoc(b, c, d);
    SumComm(b, c);
    SumAssoc(c, b, d);
    SumAssoc(a, c, Sum(b, d));
  }

  // Halving a sum, according to the low bits of the summands.
  lemma HalfOddOdd(c: bv16, d: bv16)
    requires c & 1 != 0 && d & 1 != 0
    ensures (c ^ d) & 1 == 0
    ensures (c ^ d) >> 1 == ((c >> 1) ^ 0xA001) ^ ((d >> 1) ^ 0xA001)
  {}

  lemma HalfOddEven(c: bv16, d: bv16)
    requires c & 1 != 0 && d & 1 == 0
    ensures (c ^ d) & 1 != 0
    ensures ((c ^ d) >> 1) ^ 0xA001 == ((c >> 1) ^ 0xA001) ^ (d >> 1)
  {}

  lemma HalfEvenOdd(c: bv16, d: bv16)
    requires c & 1 == 0 && d & 1 != 0
    ensures (c ^ d) & 1 != 0
    ensures ((c ^ d) >> 1) ^ 0xA001 == (c >> 1) ^ ((d >> 1) ^ 0xA001)
  {}

  lemma HalfEvenEven(c: bv16, d: bv16)
    requires c & 1 == 0 && d & 1 == 0
    ensures (c ^ d) & 1 == 0
    ensures (c ^ d) >> 1 == (c >> 1) ^ (d >> 1)
  {}

  // Halving loses the low bit only, and the generator marks an odd word in the top bit.
  lemma HalveOdd(c: bv16)
    requires c & 1 != 0
    ensures ((c >> 1) ^ 0xA001) & 0x8000 != 0
    ensures ((((c >> 1) ^ 0xA001) ^ 0xA001) << 1) | 1 == c
  {}

  lemma HalveEven(c: bv16)
    requires c & 1 == 0
    ensures (c >> 1) & 0x8000 == 0 && (c >> 1) << 1 == c
  {}

  lemma DoubleTop(c: bv16)
    requires c & 0x8000 != 0
    ensures (((c ^ 0xA001) << 1) | 1) & 1 != 0
    ensures ((((c ^ 0xA001) << 1) | 1) >> 1) ^ 0xA001 == c
  {}

  lemma DoubleLow(c: bv16)
    requires c & 0x8000 == 0
    ensures (c << 1) & 1 == 0 && (c << 1) >> 1 == c
  {}

  // Halving a sum with a doubled word that lost no bit at the top.
  lemma HalfOddDouble(x: bv16, w: bv16)
    requires x & 1 != 0 && w & 0x8000 == 0
    ensures (x ^ (w << 1)) & 1 != 0
    ensures ((x ^ (w << 1)) >> 1) ^ 0xA001 == ((x >> 1) ^ 0xA001) ^ w
  {}

  lemma HalfEvenDouble(x: bv16, w: bv16)
    requires x & 1 == 0 && w & 0x8000 == 0
    ensures (x ^ (w << 1)) & 1 == 0
    ensures (x ^ (w << 1)) >> 1 == (x >> 1) ^ w
  {}

  // Splitting the low bit off a byte that is added to a word.
  lemma SplitByte(c: bv16, b: Byte)
    ensures TopClear(Wide(Rest(b)))
    ensures Lsb(b) ==> Sum(c, Wide(b)) == Sum(Sum(c, 1), Twice(Wide(Rest(b))))
    ensures !Lsb(b) ==> Sum(c, Wide(b)) == Sum(Sum(c, 0), Twice(Wide(Rest(b))))
  {}

  lemma ByteRunsOut(b: Byte)
    ensures Rest(Rest(Rest(Rest(Rest(Rest(Rest(Rest(b)))))))) == 0
  {
    ByteRunsOutRaw(b);
  }

  lemma ByteRunsOutRaw(b: Byte)
    ensures (((((((b >> 1) >> 1) >> 1) >> 1) >> 1) >> 1) >> 1) >> 1 == 0
  {}

  // The byte with the given bits, low first, and how its bits come out again.
  function Pack(x0: bool, x1: bool, x2: bool, x3: bool, x4: bool, x5: bool, x6: bool, x7: bool): Byte {
    (if x0 then 1 else 0) | (if x1 then 2 else 0) | (if x2 then 4 else 0) | (if x3 then 8 else 0)
    | (if x4 then 16 else 0) | (if x5 then 32 else 0) | (if x6 then 64 else 0) | (if x7 then 128 else 0)
  }

  lemma Unpack(x0: bool, x1: bool, x2: bool, x3: bool, x4: bool, x5: bool, x6: bool, x7: bool)
    ensures var b := Pack(x0, x1, x2, x3, x4, x5, x6, x7);
            && Lsb(b) == x0 && Lsb(Rest(b)) == x1 && Lsb(Rest(Rest(b))) == x2 && Lsb(Rest(Rest(Rest(b)))) == x3
            && Lsb(Rest(Rest(Rest(Rest(b))))) == x4 && Lsb(Rest(Rest(Rest(Rest(Rest(b)))))) == x5
            && Lsb(Rest(Rest(Rest(Rest(Rest(Rest(b))))))) == x6
            && Lsb(Rest(Rest(Rest(Rest(Rest(Rest(Rest(b)))))))) == x7
  {}

  function Doubled(w: bv16, n: nat): bv16 {
    if n == 0 then w else Twice(Doubled(w, n - 1))
  }

  // Two bytes added to a word cancel it exactly when they are its low and its high half.
  lemma HalvesCancel(c: bv16, lo: Byte, hi: Byte)
    ensures Sum(Sum(c, Wide(lo)), Doubled(Wide(hi), 8)) == 0 <==> lo == Low(c) && hi == High(c)
  {
    hide *;
    DoubledEight(Wide(hi));
    SumOfThree(c, lo, hi);
    HalvesCancelRaw(c, lo, hi);
    HalvesAre(c);
  }

  lemma SumOfThree(c: bv16, lo: Byte, hi: Byte)
    ensures Sum(Sum(c, Wide(lo)), Wide(hi) << 8) == (c ^ (lo as bv16)) ^ ((hi as bv16) << 8)
  {}

  lemma HalvesAre(c: bv16)
    ensures Low(c) == (c & 0xFF) as Byte && High(c) == (c >> 8) as Byte
  {}

  lemma HalvesCancelRaw(c: bv16, lo: Byte, hi: Byte)
    ensures (c ^ (lo as bv16)) ^ ((hi as bv16) << 8) == 0 <==> lo == (c & 0xFF) as bv8 && hi == (c >> 8) as bv8
  {}

  lemma DoubledRaw(h: bv16)
    ensures (((((((h << 1) << 1) << 1) << 1) << 1) << 1) << 1) << 1 == h << 8
    ensures h < 0x100 ==>
      && h & 0x8000 == 0 && (h << 1) & 0x8000 == 0 && ((h << 1) << 1) & 0x8000 == 0
      && (((h << 1) << 1) << 1) & 0x8000 == 0 && ((((h << 1) << 1) << 1) << 1) & 0x8000 == 0
      && (((((h << 1) << 1) << 1) << 1) << 1) & 0x8000 == 0
      && ((((((h << 1) << 1) << 1) << 1) << 1) << 1) & 0x8000 == 0
      && (((((((h << 1) << 1) << 1) << 1) << 1) << 1) << 1) & 0x8000 == 0
  {}

  lemma ByteBelow(b: Byte)
    ensures b as bv16 < 0x100
  {}

  // A byte can be doubled eight times before it loses a bit.
  lemma DoubledEight(h: bv16)
    ensures Doubled(h, 8) == h << 8
    ensures h < 0x100 ==> forall k :: 0 <= k < 8 ==> TopClear(Doubled(h, k))
  {
    DoubledRaw(h);
    assert Doubled(h, 1) == h << 1;
    assert Doubled(h, 2) == (h << 1) << 1;
    assert Doubled(h, 3) == ((h << 1) << 1) << 1;
    assert Doubled(h, 4) == (((h << 1) << 1) << 1) << 1;
    assert Doubled(h, 5) == ((((h << 1) << 1) << 1) << 1) << 1;
    assert Doubled(h, 6) == (((((h << 1) << 1) << 1) << 1) << 1) << 1;
    assert Doubled(h, 7) == ((((((h << 1) << 1) << 1) << 1) << 1) << 1) << 1;
  }

  lemma DoubledByte(b: Byte)
    ensures forall k :: 0 <= k < 8 ==> TopClear(Doubled(Wide(b), k))
  {
    ByteBelow(b);
    DoubledEight(Wide(b));
  }

  lemma HalfOfSum(c: bv16, d: bv16)
    ensures IsOdd(Sum(c, d)) == (IsOdd(c) != IsOdd(d))
    ensures Half(Sum(c, d)) == Sum(Half(c), Half(d))
  {
    hide Half, IsOdd, Sum;
    LowBitOfSum(c, d);
    RestOfSum(c, d);
  }

  lemma LowBitOfSum(c: bv16, d: bv16)
    ensures IsOdd(Sum(c, d)) == (IsOdd(c) != IsOdd(d))
  {
    LowBitOfSumRaw(c, d);
  }

  lemma LowBitOfSumRaw(c: bv16, d: bv16)
    ensures ((c ^ d) & 1 != 0) == ((c & 1 != 0) != (d & 1 != 0))
  {}

  lemma RestOfSum(c: bv16, d: bv16)
    ensures Half(Sum(c, d)) == Sum(Half(c), Half(d))
  {
    RestOfSumRaw(c, d);
  }

  lemma RestOfSumRaw(c: bv16, d: bv16)
    ensures (c ^ d) >> 1 == (c >> 1) ^ (d >> 1)
  {}

  lemma WordRunsOut(c: bv16)
    ensures Half(Half(Half(Half(Half(Half(Half(Half(Half(Half(Half(Half(Half(Half(Half(Half(c)))))))))))))))) == 0
  {
    WordRunsOutRaw(c);
  }

  lemma WordRunsOutRaw(c: bv16)
    ensures (((((((((((((((c >> 1) >> 1) >> 1) >> 1) >> 1) >> 1) >> 1) >> 1) >> 1) >> 1) >> 1) >> 1) >> 1) >> 1) >> 1) >> 1 == 0
  {}
}
