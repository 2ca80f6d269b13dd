/** Numbers and bytes, bit by bit: what Go's conversion byte(n) keeps, and the number a byte stands for. */
module Bytes {
  import opened Words

  function Digit(x: bool): nat { if x then 1 else 0 }

  function Weighted(d0: nat, d1: nat, d2: nat, d3: nat, d4: nat, d5: nat, d6: nat, d7: nat): nat {
    d0 + 2 * (d1 + 2 * (d2 + 2 * (d3 + 2 * (d4 + 2 * (d5 + 2 * (d6 + 2 * d7))))))
  }

  function Weigh(b0: bool, b1: bool, b2: bool, b3: bool, b4: bool, b5: bool, b6: bool, b7: bool): nat {
    Weighted(Digit(b0), Digit(b1), Digit(b2), Digit(b3), Digit(b4), Digit(b5), Digit(b6), Digit(b7))
  }

  predicate Bit(b: Byte, w: Byte) { b & w != 0 }

  function DigitAt(b: Byte, w: Byte): nat { Digit(Bit(b, w)) }

  // The number a byte stands for.
  function Value(b: Byte): nat {
    Weighted(DigitAt(b, 1), DigitAt(b, 2), DigitAt(b, 4), DigitAt(b, 8), DigitAt(b, 16), DigitAt(b, 32), DigitAt(b, 64), DigitAt(b, 128))
  }

  /** The eight bits of a byte stand for the powers of two, low bit first. */
  lemma ValueOfPowers()
    ensures Value(0) == 0 && Value(1) == 1 && Value(2) == 2 && Value(4) == 4 && Value(8) == 8
    ensures Value(16) == 16 && Value(32) == 32 && Value(64) == 64 && Value(128) == 128
  {
    PackedPowers();
    hide Value, Pack;
    PackValue(false, false, false, false, false, false, false, false);
    PackValue(true, false, false, false, false, false, false, false);
    PackValue(false, true, false, false, false, false, false, false);
    PackValue(false, false, true, false, false, false, false, false);
    PackValue(false, false, false, true, false, false, false, false);
    PackValue(false, false, false, false, true, false, false, false);
    PackValue(false, false, false, false, false, true, false, false);
    PackValue(false, false, false, false, false, false, true, false);
    PackValue(false, false, false, false, false, false, false, true);
  }

  lemma PackedPowers()
    ensures Pack(false, false, false, false, false, false, false, false) == 0
    ensures Pack(true, false, false, false, false, false, false, false) == 1
    ensures Pack(false, true, false, false, false, false, false, false) == 2
    ensures Pack(false, false, true, false, false, false, false, false) == 4
    ensures Pack(false, false, false, true, false, false, false, false) == 8
    ensures Pack(false, false, false, false, true, false, false, false) == 16
    ensures Pack(false, false, false, false, false, true, false, false) == 32
    ensures Pack(false, false, false, false, false, false, true, false) == 64
    ensures Pack(false, false, false, false, false, false, false, true) == 128
  {
  }

  /** Bits that two bytes do not share add up. */
  lemma ValueOfDisjoint(a: Byte, b: Byte)
    requires a & b == 0
    ensures Value(a | b) == Value(a) + Value(b)
  {
    assert Disjoint(a, b) && Both(a, b) == a | b;
    hide Both, Disjoint;
    ValueOfBoth(a, b);
  }

  predicate Disjoint(a: Byte, b: Byte) { a & b == 0 }

  function Both(a: Byte, b: Byte): Byte { a | b }

  lemma ValueOfBoth(a: Byte, b: Byte)
    requires Disjoint(a, b)
    ensures Value(Both(a, b)) == Value(a) + Value(b)
  {
    hide DigitAt, Weighted, Both, Disjoint;
    DigitOfBoth(a, b, 1);
    DigitOfBoth(a, b, 2);
    DigitOfBoth(a, b, 4);
    DigitOfBoth(a, b, 8);
    DigitOfBoth(a, b, 16);
    DigitOfBoth(a, b, 32);
    DigitOfBoth(a, b, 64);
    DigitOfBoth(a, b, 128);
    WeightedSum(DigitAt(a, 1), DigitAt(a, 2), DigitAt(a, 4), DigitAt(a, 8), DigitAt(a, 16), DigitAt(a, 32), DigitAt(a, 64), DigitAt(a, 128),
                DigitAt(b, 1), DigitAt(b, 2), DigitAt(b, 4), DigitAt(b, 8), DigitAt(b, 16), DigitAt(b, 32), DigitAt(b, 64), DigitAt(b, 128));
  }

  lemma DigitOfBoth(a: Byte, b: Byte, w: Byte)
    requires Disjoint(a, b) && w in {1, 2, 4, 8, 16, 32, 64, 128}
    ensures DigitAt(Both(a, b), w) == DigitAt(a, w) + DigitAt(b, w)
  {
    BitOfBoth(a, b, w);
    hide Bit, Both, Disjoint;
  }

  lemma BitOfBoth(a: Byte, b: Byte, w: Byte)
    requires Disjoint(a, b) && w in {1, 2, 4, 8, 16, 32, 64, 128}
    ensures Bit(Both(a, b), w) == (Bit(a, w) || Bit(b, w)) && !(Bit(a, w) && Bit(b, w))
  {
  }

  lemma WeightedSum(a0: nat, a1: nat, a2: nat, a3: nat, a4: nat, a5: nat, a6: nat, a7: nat,
                    b0: nat, b1: nat, b2: nat, b3: nat, b4: nat, b5: nat, b6: nat, b7: nat)
    ensures Weighted(a0 + b0, a1 + b1, a2 + b2, a3 + b3, a4 + b4, a5 + b5, a6 + b6, a7 + b7)
         == Weighted(a0, a1, a2, a3, a4, a5, a6, a7) + Weighted(b0, b1, b2, b3, b4, b5, b6, b7)
  {
  }

  // The low eight bits of a number.
  function ToByte(n: int): (b: Byte)
    ensures Value(b) == n % 256
  {
    hide ByteOf, Value;
    ByteValue(n % 256);
    ByteOf(n % 256)
  }

  predicate Odd(n: nat) { n % 2 == 1 }

  function HalfOf(n: nat): nat { n / 2 }

  function ByteOf(m: nat): Byte {
    var h1 := HalfOf(m);
    var h2 := HalfOf(h1);
    var h3 := HalfOf(h2);
    var h4 := HalfOf(h3);
    var h5 := HalfOf(h4);
    var h6 := HalfOf(h5);
    var h7 := HalfOf(h6);
    Pack(Odd(m), Odd(h1), Odd(h2), Odd(h3), Odd(h4), Odd(h5), Odd(h6), Odd(h7))
  }

  lemma PackBits(b0: bool, b1: bool, b2: bool, b3: bool, b4: bool, b5: bool, b6: bool, b7: bool)
    ensures var b := Pack(b0, b1, b2, b3, b4, b5, b6, b7);
            && Bit(b, 1) == b0 && Bit(b, 2) == b1 && Bit(b, 4) == b2 && Bit(b, 8) == b3
            && Bit(b, 16) == b4 && Bit(b, 32) == b5 && Bit(b, 64) == b6 && Bit(b, 128) == b7
  {
  }

  lemma PackValue(b0: bool, b1: bool, b2: bool, b3: bool, b4: bool, b5: bool, b6: bool, b7: bool)
    ensures Value(Pack(b0, b1, b2, b3, b4, b5, b6, b7)) == Weigh(b0, b1, b2, b3, b4, b5, b6, b7)
  {
    PackBits(b0, b1, b2, b3, b4, b5, b6, b7);
    hide Pack, Weighted, Bit;
  }

  lemma LastDigit(n: nat, k: nat)
    requires n < 2 * k
    ensures HalfOf(n) < k && n == 2 * HalfOf(n) + Digit(Odd(n))
  {
  }

  lemma OnlyDigit(n: nat)
    requires n < 2
    ensures n == Digit(Odd(n))
  {
  }

  lemma ByteValue(m: nat)
    requires m < 256
    ensures Value(ByteOf(m)) == m
  {
    hide Pack, Value, Odd, Digit, Weigh, HalfOf;
    var h1 := HalfOf(m);
    var h2 := HalfOf(h1);
    var h3 := HalfOf(h2);
    var h4 := HalfOf(h3);
    var h5 := HalfOf(h4);
    var h6 := HalfOf(h5);
    var h7 := HalfOf(h6);
    LastDigit(m, 128); LastDigit(h1, 64); LastDigit(h2, 32); LastDigit(h3, 16);
    LastDigit(h4, 8); LastDigit(h5, 4); LastDigit(h6, 2); OnlyDigit(h7);
    PackValue(Odd(m), Odd(h1), Odd(h2), Odd(h3), Odd(h4), Odd(h5), Odd(h6), Odd(h7));
    Horner(m, h1, h2, h3, h4, h5, h6, h7, Odd(m), Odd(h1), Odd(h2), Odd(h3), Odd(h4), Odd(h5), Odd(h6), Odd(h7));
  }

  lemma Horner(m: nat, h1: nat, h2: nat, h3: nat, h4: nat, h5: nat, h6: nat, h7: nat,
               b0: bool, b1: bool, b2: bool, b3: bool, b4: bool, b5: bool, b6: bool, b7: bool)
    requires m == 2 * h1 + Digit(b0) && h1 == 2 * h2 + Digit(b1) && h2 == 2 * h3 + Digit(b2) && h3 == 2 * h4 + Digit(b3)
    requires h4 == 2 * h5 + Digit(b4) && h5 == 2 * h6 + Digit(b5) && h6 == 2 * h7 + Digit(b6) && h7 == Digit(b7)
    ensures Weigh(b0, b1, b2, b3, b4, b5, b6, b7) == m
  {
    hide Digit;
  }
}
