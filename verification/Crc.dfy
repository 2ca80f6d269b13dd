/**
 The CRC-16 register of the serial client, as the bitwise algorithm of
 MODBUS over Serial Line V1.02, section 6.2.2 computes it: start from 0xFFFF, take each
 byte low bit first, and divide by the reflected generator 0xA001.
 */
module Crc {
  import opened Words

  const INITIAL: bv16 := 0xFFFF
  const GENERATOR: bv16 := 0xA001

  // One turn of the inner loop: shift right, and subtract the generator when a 1 fell out.
  function Shift(c: bv16): bv16 {
    if c & 1 != 0 then (c >> 1) ^ GENERATOR else c >> 1
  }

  function Shifts(c: bv16, n: nat): bv16
    decreases n
  {
    if n == 0 then c else Shifts(Shift(c), n - 1)
  }

  // The body of the outer loop: absorb one byte.
  function Absorb(c: bv16, b: Byte): bv16 {
    Shifts(Sum(c, Wide(b)), 8)
  }

  // The register after a whole message.
  function Register(c: bv16, data: seq<Byte>): bv16
    decreases data
  {
    if data == [] then c else Register(Absorb(c, data[0]), data[1..])
  }

  function Checksum(data: seq<Byte>): bv16 {
    Register(INITIAL, data)
  }

  /** The inner loop of the checksum. */
  method ShiftEight(start: bv16) returns (crc: bv16)
    ensures crc == Shifts(start, 8)
  {
    crc := start;
    for i := 0 to 8
      invariant Shifts(crc, 8 - i) == Shifts(start, 8)
    {
      if crc & 0x0001 != 0 {
        crc := crc >> 1;
        crc := crc ^ GENERATOR;
      } else {
        crc := crc >> 1;
      }
    }
  }

  /** The nested loops that compute the checksum. */
  method CalculateCRC(data: seq<Byte>) returns (crc: bv16)
    ensures crc == Checksum(data)
  {
    crc := INITIAL;
    for j := 0 to |data|
      invariant Register(crc, data[j..]) == Checksum(data)
    {
      assert data[j..][1..] == data[j + 1..];
      crc := ShiftEight(crc ^ (data[j] as bv16));
    }
  }

  // ---------------------------------------------------------------- linearity and bijectivity

  /** One shift is linear over GF(2). */
  lemma ShiftLinear(c: bv16, d: bv16)
    ensures Shift(Sum(c, d)) == Sum(Shift(c), Shift(d))
  {
    hide Shift;
    ShiftLinearRaw(c, d);
  }

  lemma ShiftLinearRaw(c: bv16, d: bv16)
    ensures Shift(c ^ d) == Shift(c) ^ Shift(d)
  {
    hide Shift;
    ShiftCases(c);
    ShiftCases(d);
    ShiftCases(c ^ d);
    if c & 1 != 0 {
      if d & 1 != 0 { HalfOddOdd(c, d); } else { HalfOddEven(c, d); }
    } else {
      if d & 1 != 0 { HalfEvenOdd(c, d); } else { HalfEvenEven(c, d); }
    }
  }

  lemma ShiftCases(c: bv16)
    ensures c & 1 != 0 ==> Shift(c) == (c >> 1) ^ 0xA001
    ensures c & 1 == 0 ==> Shift(c) == c >> 1
  {
  }

  // The inverse of one shift: the top bit tells whether the generator was subtracted.
  function Unshift(c: bv16): bv16 {
    if c & 0x8000 != 0 then ((c ^ GENERATOR) << 1) | 1 else c << 1
  }

  /** One shift is a bijection on the register. */
  lemma ShiftBijective(c: bv16)
    ensures Unshift(Shift(c)) == c && Shift(Unshift(c)) == c
  {
    UnshiftShift(c);
    ShiftUnshift(c);
  }

  lemma UnshiftShift(c: bv16)
    ensures Unshift(Shift(c)) == c
  {
    if c & 1 != 0 { HalveOdd(c); } else { HalveEven(c); }
  }

  lemma ShiftUnshift(c: bv16)
    ensures Shift(Unshift(c)) == c
  {
    if c & 0x8000 != 0 { DoubleTop(c); } else { DoubleLow(c); }
  }

  lemma ShiftZero(c: bv16)
    ensures Shift(c) == 0 <==> c == 0
  {
    assert Unshift(0) == 0 && Shift(0) == 0;
    ShiftBijective(c);
  }

  // Any number of shifts reaches zero from zero only.
  lemma {:induction false} ShiftsZero(c: bv16, n: nat)
    ensures Shifts(c, n) == 0 <==> c == 0
    decreases n
  {
    if n > 0 {
      ShiftZero(c);
      ShiftsZero(Shift(c), n - 1);
    }
  }

  lemma ShiftAddsRaw(x: bv16, w: bv16)
    requires w & 0x8000 == 0
    ensures Shift(x ^ (w << 1)) == Shift(x) ^ w
  {
    if x & 1 != 0 { HalfOddDouble(x, w); } else { HalfEvenDouble(x, w); }
  }

  // Shift distributes over a word that has no bit to lose at the top.
  lemma ShiftAdds(x: bv16, w: bv16)
    requires TopClear(w)
    ensures Shift(Sum(x, Twice(w))) == Sum(Shift(x), w)
  {
    hide Shift;
    ShiftAddsRaw(x, w);
  }

  // A word that enters n places up is added to the register n shifts later.
  lemma {:induction false} ShiftsAdd(x: bv16, w: bv16, n: nat)
    requires forall k :: 0 <= k < n ==> TopClear(Doubled(w, k))
    ensures Shifts(Sum(x, Doubled(w, n)), n) == Sum(Shifts(x, n), w)
    decreases n
  {
    hide Shift, Sum, Twice, TopClear;
    if n > 0 {
      ShiftAdds(x, Doubled(w, n - 1));
      ShiftsAdd(Shift(x), w, n - 1);
    }
  }

  // Two bytes take a register to zero exactly when they are its low and its high half.
  lemma TwoBytesCancel(c: bv16, lo: Byte, hi: Byte)
    ensures Absorb(Absorb(c, lo), hi) == 0 <==> lo == Low(c) && hi == High(c)
  {
    hide Shift, Shifts, Sum, Twice, TopClear, Doubled, Wide, Low, High;
    DoubledByte(hi);
    ShiftsAdd(Sum(c, Wide(lo)), Wide(hi), 8);
    ShiftsZero(Sum(Absorb(c, lo), Wide(hi)), 8);
    ShiftsZero(Sum(Sum(c, Wide(lo)), Doubled(Wide(hi), 8)), 8);
    HalvesCancel(c, lo, hi);
  }

  // ---------------------------------------------------------------- the bit-serial view

  // The low n bits of a byte, low first, and what remains above them.
  function LowBits(b: Byte, n: nat): (bits: seq<bool>)
    ensures |bits| == n
    decreases n
  {
    if n == 0 then [] else [Lsb(b)] + LowBits(Rest(b), n - 1)
  }

  function Above(b: Byte, n: nat): Byte
    decreases n
  {
    if n == 0 then b else Above(Rest(b), n - 1)
  }

  function ByteBits(b: Byte): (bits: seq<bool>)
    ensures |bits| == 8
  {
    LowBits(b, 8)
  }

  // The bits of a message in the order they enter the register.
  function Bits(data: seq<Byte>): (bits: seq<bool>)
    ensures |bits| == 8 * |data|
  {
    if data == [] then [] else ByteBits(data[0]) + Bits(data[1..])
  }

  function BitWord(x: bool): bv16 { if x then 1 else 0 }

  // The register fed one bit at a time.
  function Feed(c: bv16, bits: seq<bool>): bv16
    decreases bits
  {
    if bits == [] then c else Feed(Shift(Sum(c, BitWord(bits[0]))), bits[1..])
  }

  lemma {:induction false} FeedAppend(c: bv16, a: seq<bool>, b: seq<bool>)
    ensures Feed(c, a + b) == Feed(Feed(c, a), b)
    decreases a
  {
    hide Shift, Sum, BitWord;
    if a == [] {
      assert a + b == b;
    } else {
      assert (a + b)[1..] == a[1..] + b;
      FeedAppend(Shift(Sum(c, BitWord(a[0]))), a[1..], b);
    }
  }

  lemma NothingAbove(b: Byte)
    ensures Above(b, 8) == 0
  {
    hide Rest;
    ByteRunsOut(b);
    AboveTwo(b, 6);
    AboveTwo(Rest(Rest(b)), 4);
    AboveTwo(Rest(Rest(Rest(Rest(b)))), 2);
    AboveTwo(Rest(Rest(Rest(Rest(Rest(Rest(b)))))), 0);
  }

  lemma AboveTwo(b: Byte, n: nat)
    ensures Above(b, n + 2) == Above(Rest(Rest(b)), n)
  {
    hide Rest;
    assert Above(b, n + 2) == Above(Rest(b), n + 1);
  }

  lemma LowBitsTwo(b: Byte, n: nat)
    ensures LowBits(b, n + 2) == [Lsb(b), Lsb(Rest(b))] + LowBits(Rest(Rest(b)), n)
  {
    hide Rest, Lsb;
    assert LowBits(b, n + 2) == [Lsb(b)] + LowBits(Rest(b), n + 1);
  }

  lemma LowBitsFour(b: Byte, n: nat)
    ensures LowBits(b, n + 4) == [Lsb(b), Lsb(Rest(b)), Lsb(Rest(Rest(b))), Lsb(Rest(Rest(Rest(b))))]
                              + LowBits(Rest(Rest(Rest(Rest(b)))), n)
  {
    hide Rest, Lsb, LowBits;
    LowBitsTwo(b, n + 2);
    LowBitsTwo(Rest(Rest(b)), n);
  }

  // Any eight bits are the bits of a byte.
  lemma PackedBits(x0: bool, x1: bool, x2: bool, x3: bool, x4: bool, x5: bool, x6: bool, x7: bool)
    ensures ByteBits(Pack(x0, x1, x2, x3, x4, x5, x6, x7)) == [x0, x1, x2, x3, x4, x5, x6, x7]
  {
    hide Pack, Rest, Lsb, LowBits;
    var b := Pack(x0, x1, x2, x3, x4, x5, x6, x7);
    LowBitsFour(b, 4);
    LowBitsFour(Rest(Rest(Rest(Rest(b)))), 0);
    Unpack(x0, x1, x2, x3, x4, x5, x6, x7);
  }

  // Adding a byte and shifting is feeding its bits, low first.
  lemma {:induction false} ShiftsFeed(c: bv16, b: Byte, n: nat)
    ensures Shifts(Sum(c, Wide(b)), n) == Sum(Feed(c, LowBits(b, n)), Wide(Above(b, n)))
    decreases n
  {
    hide Shift, Sum, Twice, TopClear, Wide, Lsb, Rest;
    if n > 0 {
      SplitByte(c, b);
      ShiftAdds(Sum(c, BitWord(Lsb(b))), Wide(Rest(b)));
      ShiftsFeed(Shift(Sum(c, BitWord(Lsb(b)))), Rest(b), n - 1);
      assert LowBits(b, n)[1..] == LowBits(Rest(b), n - 1);
    }
  }

  lemma AbsorbIsFeed(c: bv16, b: Byte)
    ensures Absorb(c, b) == Feed(c, ByteBits(b))
  {
    hide Shift, Shifts, Feed, Sum, Above;
    ShiftsFeed(c, b, 8);
    NothingAbove(b);
    SumZero(Feed(c, ByteBits(b)));
  }

  /** The byte-wise register is the bit-serial one. */
  lemma {:induction false} RegisterIsFeed(c: bv16, data: seq<Byte>)
    ensures Register(c, data) == Feed(c, Bits(data))
    decreases data
  {
    hide Shift, Feed, Absorb, ByteBits;
    if data == [] {
      assert Feed(c, []) == c by { EmptyFeed(c); }
    } else {
      AbsorbIsFeed(c, data[0]);
      RegisterIsFeed(Absorb(c, data[0]), data[1..]);
      FeedAppend(c, ByteBits(data[0]), Bits(data[1..]));
    }
  }

  lemma EmptyFeed(c: bv16)
    ensures Feed(c, []) == c
  {
  }

  function AddBits(a: seq<bool>, b: seq<bool>): (r: seq<bool>)
    requires |a| == |b|
    ensures |r| == |a|
  {
    seq(|a|, i requires 0 <= i < |a| => a[i] != b[i])
  }

  lemma BitWordSum(x: bool, y: bool)
    ensures BitWord(x != y) == Sum(BitWord(x), BitWord(y))
  {
  }

  /** The register is linear over GF(2): the sum of two runs is the run of the sums. */
  lemma {:induction false} FeedLinear(c: bv16, d: bv16, a: seq<bool>, b: seq<bool>)
    requires |a| == |b|
    ensures Feed(Sum(c, d), AddBits(a, b)) == Sum(Feed(c, a), Feed(d, b))
    decreases a
  {
    hide Shift, Sum, BitWord;
    if a != [] {
      var x, y := BitWord(a[0]), BitWord(b[0]);
      BitWordSum(a[0], b[0]);
      SumSwap(c, d, x, y);
      ShiftLinear(Sum(c, x), Sum(d, y));
      assert AddBits(a, b)[1..] == AddBits(a[1..], b[1..]);
      FeedLinear(Shift(Sum(c, x)), Shift(Sum(d, y)), a[1..], b[1..]);
    }
  }

  // A silent stretch of any length takes only the zero register to zero.
  lemma {:induction false} FeedZeros(c: bv16, bits: seq<bool>)
    requires forall i :: 0 <= i < |bits| ==> !bits[i]
    ensures Feed(c, bits) == 0 <==> c == 0
    decreases bits
  {
    hide Shift, Sum;
    if bits != [] {
      SumZero(c);
      ShiftZero(c);
      FeedZeros(Shift(c), bits[1..]);
    }
  }

  // Two bytes fed to the zero register leave zero only when both are zero.
  lemma TwoBytesZero(lo: Byte, hi: Byte)
    requires Feed(0, ByteBits(lo) + ByteBits(hi)) == 0
    ensures lo == 0 && hi == 0
  {
    hide Shift, Feed, Absorb, Low, High, ByteBits;
    AbsorbIsFeed(0, lo);
    AbsorbIsFeed(Absorb(0, lo), hi);
    FeedAppend(0, ByteBits(lo), ByteBits(hi));
    TwoBytesCancel(0, lo, hi);
    ZeroHalves();
  }

  // Sixteen bits fed to the zero register leave zero only when they are all zero.
  lemma WindowZero(w: seq<bool>)
    requires |w| == 16
    requires Feed(0, w) == 0
    ensures forall i :: 0 <= i < 16 ==> !w[i]
  {
    hide *;
    var lo := BitsOfSomeByte(w[..8]);
    var hi := BitsOfSomeByte(w[8..]);
    assert w == ByteBits(lo) + ByteBits(hi);
    TwoBytesZero(lo, hi);
    ZeroBits();
  }

  lemma BitsOfSomeByte(x: seq<bool>) returns (b: Byte)
    requires |x| == 8
    ensures ByteBits(b) == x
  {
    hide *;
    b := Pack(x[0], x[1], x[2], x[3], x[4], x[5], x[6], x[7]);
    PackedBits(x[0], x[1], x[2], x[3], x[4], x[5], x[6], x[7]);
    EightItems(x);
  }

  lemma EightItems<T>(x: seq<T>)
    requires |x| == 8
    ensures x == [x[0], x[1], x[2], x[3], x[4], x[5], x[6], x[7]]
  {
  }

  lemma ZeroHalves()
    ensures Low(0) == 0 && High(0) == 0
  {}

  lemma ZeroBits()
    ensures ByteBits(0) == [false, false, false, false, false, false, false, false]
  {}

  /** Burst errors: a run of at most 16 wrong bits in an otherwise silent error, wherever it lies, never cancels. */
  lemma BurstNeverCancels(e: seq<bool>, k: nat)
    requires k + 16 <= |e|
    requires forall i :: 0 <= i < |e| && !(k <= i < k + 16) ==> !e[i]
    requires Feed(0, e) == 0
    ensures forall i :: 0 <= i < |e| ==> !e[i]
  {
    hide Shift, Sum, Feed;
    var before, window, after := e[..k], e[k..k + 16], e[k + 16..];
    assert e == before + (window + after);
    FeedAppend(0, before, window + after);
    FeedZeros(0, before);
    FeedAppend(0, window, after);
    FeedZeros(Feed(0, window), after);
    WindowZero(window);
  }

  // ---------------------------------------------------------------- parity

  // Whether an odd number of the low n bits of a word is set.
  predicate OddBits(c: bv16, n: nat)
    decreases n
  {
    n > 0 && IsOdd(c) != OddBits(Half(c), n - 1)
  }

  predicate OddWeight(bits: seq<bool>)
    decreases bits
  {
    bits != [] && bits[0] != OddWeight(bits[1..])
  }

  lemma {:induction false} OddBitsSum(c: bv16, d: bv16, n: nat)
    ensures OddBits(Sum(c, d), n) == (OddBits(c, n) != OddBits(d, n))
    decreases n
  {
    hide Sum, IsOdd, Half;
    if n > 0 {
      HalfOfSum(c, d);
      OddBitsSum(Half(c), Half(d), n - 1);
    }
  }

  lemma {:induction false} OddBitsZero(n: nat)
    ensures !OddBits(0, n)
    decreases n
  {
    if n > 0 {
      assert Half(0) == 0 && !IsOdd(0);
      OddBitsZero(n - 1);
    }
  }

  // What is left of a word after n halvings, and the weight of a longer stretch of it.
  function Halved(c: bv16, n: nat): bv16
    decreases n
  {
    if n == 0 then c else Halved(Half(c), n - 1)
  }

  lemma {:induction false} OddBitsSplit(c: bv16, n: nat, m: nat)
    ensures OddBits(c, n + m) == (OddBits(c, n) != OddBits(Halved(c, n), m))
    decreases n
  {
    hide IsOdd, Half;
    if n > 0 {
      OddBitsSplit(Half(c), n - 1, m);
    }
  }

  lemma HalvedFour(c: bv16, n: nat)
    ensures Halved(c, n + 4) == Halved(Half(Half(Half(Half(c)))), n)
  {
    hide Half;
    assert Halved(c, n + 4) == Halved(Half(c), n + 3);
    assert Halved(Half(c), n + 3) == Halved(Half(Half(c)), n + 2);
    assert Halved(Half(Half(c)), n + 2) == Halved(Half(Half(Half(c))), n + 1);
  }

  lemma NothingHalved(c: bv16)
    ensures Halved(c, 16) == 0
  {
    hide Half;
    WordRunsOut(c);
    HalvedFour(c, 12);
    HalvedFour(Half(Half(Half(Half(c)))), 8);
    HalvedFour(Half(Half(Half(Half(Half(Half(Half(Half(c)))))))), 4);
    HalvedFour(Half(Half(Half(Half(Half(Half(Half(Half(Half(Half(Half(Half(c)))))))))))), 0);
  }

  // Halving loses exactly the low bit.
  lemma OddHalf(c: bv16)
    ensures OddBits(Half(c), 16) == (OddBits(c, 16) != IsOdd(c))
  {
    hide Half, IsOdd;
    NothingHalved(c);
    OddBitsSplit(Half(c), 15, 1);
    assert Halved(Half(c), 15) == Halved(c, 16);
    OddBitsZero(1);
  }

  // The generator has an odd number of bits: subtracting it makes up for the bit that fell out.
  lemma OddGenerator()
    ensures OddBits(GENERATOR, 16)
  {
    assert IsOdd(0xA001) && Half(0xA001) == 0x5000;
    assert !IsOdd(0x5000) && Half(0x5000) == 0x2800 && !IsOdd(0x2800) && Half(0x2800) == 0x1400;
    assert !IsOdd(0x1400) && Half(0x1400) == 0xA00 && !IsOdd(0xA00) && Half(0xA00) == 0x500;
    assert !IsOdd(0x500) && Half(0x500) == 0x280 && !IsOdd(0x280) && Half(0x280) == 0x140;
    assert !IsOdd(0x140) && Half(0x140) == 0xA0 && !IsOdd(0xA0) && Half(0xA0) == 0x50;
    assert !IsOdd(0x50) && Half(0x50) == 0x28 && !IsOdd(0x28) && Half(0x28) == 0x14;
    assert !IsOdd(0x14) && Half(0x14) == 0xA && !IsOdd(0xA) && Half(0xA) == 5;
    assert IsOdd(5) && Half(5) == 2 && !IsOdd(2) && Half(2) == 1 && IsOdd(1) && Half(1) == 0;
    assert !OddBits(5, 4);
    assert !OddBits(0x14, 6);
    assert !OddBits(0x50, 8);
    assert !OddBits(0x140, 10);
    assert !OddBits(0x500, 12);
    assert !OddBits(0x1400, 14);
    assert !OddBits(0x5000, 15);
  }

  lemma OddShift(c: bv16)
    ensures OddBits(Shift(c), 16) == OddBits(c, 16)
  {
    ShiftBySum(c);
    hide Shift, Half, Sum, IsOdd, OddBits;
    OddHalf(c);
    OddGenerator();
    OddBitsSum(Half(c), GENERATOR, 16);
  }

  lemma ShiftBySum(c: bv16)
    ensures Shift(c) == if IsOdd(c) then Sum(Half(c), GENERATOR) else Half(c)
  {}

  lemma OddBit(x: bool)
    ensures OddBits(BitWord(x), 16) == x
  {
    OddBitsZero(16);
    OddBitsZero(15);
    assert IsOdd(1) && Half(1) == 0;
  }

  /** The parity of the register is the parity of where it started plus that of the bits it consumed. */
  lemma {:induction false} FeedParity(c: bv16, bits: seq<bool>)
    ensures OddBits(Feed(c, bits), 16) == (OddBits(c, 16) != OddWeight(bits))
    decreases bits
  {
    hide Shift, Sum, BitWord, OddBits;
    if bits != [] {
      OddBit(bits[0]);
      OddBitsSum(c, BitWord(bits[0]), 16);
      OddShift(Sum(c, BitWord(bits[0])));
      FeedParity(Shift(Sum(c, BitWord(bits[0]))), bits[1..]);
    }
  }

  /** An error that flips an odd number of bits never cancels. */
  lemma OddErrorNeverCancels(e: seq<bool>)
    requires OddWeight(e)
    ensures Feed(0, e) != 0
  {
    hide Feed, OddWeight;
    FeedParity(0, e);
    OddBitsZero(16);
  }
}
