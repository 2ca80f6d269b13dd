/**
 How long the register takes to come back: fed nothing but zeros from 1, it returns to 1
 after 32767 shifts and no sooner. Two wrong bits cancel exactly when they are a multiple of
 that far apart.
 */
module CrcOrder {
  import opened Words
  import opened Crc

  // Shifting as multiplication: bit k of the first factor stands for k shifts back.
  function Times(a: bv16, y: bv16, n: nat): bv16
    decreases n
  {
    if n == 0 then 0 else Sum(if IsOdd(a) then y else 0, Times(Half(a), Unshift(y), n - 1))
  }

  function Product(a: bv16, y: bv16): bv16 {
    Times(a, y, 16)
  }

  lemma {:induction false} TimesShift(a: bv16, y: bv16, n: nat)
    ensures Shift(Times(a, y, n)) == Times(a, Shift(y), n)
    decreases n
  {
    ShiftZero(0);
    if n > 0 {
      ShiftBijective(y);
      TimesShift(Half(a), Unshift(y), n - 1);
      ShiftLinear(if IsOdd(a) then y else 0, Times(Half(a), Unshift(y), n - 1));
      hide Shift, Unshift, Sum, IsOdd, Half;
    }
  }

  lemma PickSum(p: bool, q: bool, y: bv16)
    ensures (if p != q then y else 0) == Sum(if p then y else 0, if q then y else 0)
  {
    hide Sum;
    SumZero(y);
    SumZero(0);
  }

  lemma {:induction false} TimesSum(a: bv16, b: bv16, y: bv16, n: nat)
    ensures Times(Sum(a, b), y, n) == Sum(Times(a, y, n), Times(b, y, n))
    decreases n
  {
    if n == 0 {
      SumZero(0);
    } else {
      HalfOfSum(a, b);
      PickSum(IsOdd(a), IsOdd(b), y);
      TimesSum(Half(a), Half(b), Unshift(y), n - 1);
      hide Sum, IsOdd, Half, Unshift;
      SumSwap(if IsOdd(a) then y else 0, if IsOdd(b) then y else 0, Times(Half(a), Unshift(y), n - 1), Times(Half(b), Unshift(y), n - 1));
    }
  }

  // The register after so many shifts of 1.
  function Power(n: nat): bv16 {
    Shifts(1, n)
  }

  lemma {:induction false} ShiftsMore(c: bv16, m: nat, n: nat)
    ensures Shifts(c, m + n) == Shifts(Shifts(c, m), n)
    decreases m
  {
    hide Shift;
    if m > 0 { ShiftsMore(Shift(c), m - 1, n); }
  }

  lemma PowerNext(n: nat)
    ensures Power(n + 1) == Shift(Power(n))
  {
    hide Shift;
    ShiftsMore(1, n, 1);
    assert Shifts(Power(n), 1) == Shifts(Shift(Power(n)), 0);
  }

  // A factor whose low bits run out after n places needs no more than n turns.
  lemma {:induction false} TimesShort(a: bv16, y: bv16, n: nat)
    requires Halved(a, n) == 0
    ensures Times(a, y, n + 1) == Times(a, y, n)
    decreases n
  {
    if n == 0 {
      assert !IsOdd(0);
      SumZero(0);
      assert Times(0, Unshift(y), 0) == 0;
    } else {
      TimesShort(Half(a), Unshift(y), n - 1);
    }
  }

  // Four turns at once, so that products of constants can be worked out.
  function Pick(a: bv16, y: bv16): bv16 { if IsOdd(a) then y else 0 }

  function BackFour(y: bv16): bv16 { Unshift(Unshift(Unshift(Unshift(y)))) }

  function HalfFour(a: bv16): bv16 { Half(Half(Half(Half(a)))) }

  // Four turns, in front of the others.
  function Four(a: bv16, y: bv16, rest: bv16): bv16 {
    Sum(Pick(a, y), Sum(Pick(Half(a), Unshift(y)),
    Sum(Pick(Half(Half(a)), Unshift(Unshift(y))), Sum(Pick(Half(Half(Half(a))), Unshift(Unshift(Unshift(y)))), rest))))
  }

  lemma TimesFour(a: bv16, y: bv16, n: nat)
    requires n >= 4
    ensures Times(a, y, n) == Four(a, y, Times(HalfFour(a), BackFour(y), n - 4))
  {
    hide Unshift, Half, Sum, IsOdd;
    var y1 := Unshift(y);
    var y2 := Unshift(y1);
    var y3 := Unshift(y2);
    var a1 := Half(a);
    var a2 := Half(a1);
    var a3 := Half(a2);
    assert Times(a3, y3, n - 3) == Sum(Pick(a3, y3), Times(Half(a3), Unshift(y3), n - 4));
    assert Times(a2, y2, n - 2) == Sum(Pick(a2, y2), Times(a3, y3, n - 3));
    assert Times(a1, y1, n - 1) == Sum(Pick(a1, y1), Times(a2, y2, n - 2));
  }

  function Unrolled(a: bv16, y: bv16): bv16 {
    var a1, y1 := HalfFour(a), BackFour(y);
    var a2, y2 := HalfFour(a1), BackFour(y1);
    var a3, y3 := HalfFour(a2), BackFour(y2);
    Four(a, y, Four(a1, y1, Four(a2, y2, Four(a3, y3, 0))))
  }

  lemma ProductUnrolled(a: bv16, y: bv16)
    ensures Product(a, y) == Unrolled(a, y)
  {
    hide Four, BackFour, HalfFour, Pick, Sum, Half, Unshift, IsOdd;
    var a1, y1 := HalfFour(a), BackFour(y);
    var a2, y2 := HalfFour(a1), BackFour(y1);
    var a3, y3 := HalfFour(a2), BackFour(y2);
    TimesFour(a, y, 16);
    TimesFour(a1, y1, 12);
    TimesFour(a2, y2, 8);
    TimesFour(a3, y3, 4);
    assert Times(HalfFour(a3), BackFour(y3), 0) == 0;
  }

  lemma GeneratorTimesOne()
    ensures Product(GENERATOR, 1) == GENERATOR
  {
    ProductUnrolled(GENERATOR, 1);
  }

  lemma {:induction false} GeneratorTimes(n: nat)
    ensures Product(GENERATOR, Power(n)) == Shift(Power(n))
    decreases n
  {
    if n == 0 {
      GeneratorTimesOne();
    } else {
      GeneratorTimes(n - 1);
      PowerNext(n - 1);
      TimesShift(GENERATOR, Power(n - 1), 16);
      hide Shift, Times, Power;
    }
  }

  lemma OneTimes(y: bv16)
    ensures Product(1, y) == y
  {
    TimesNothing(Unshift(y), 15);
    assert IsOdd(1) && Half(1) == 0;
    SumZero(y);
    hide Unshift, Sum;
  }

  lemma {:induction false} TimesNothing(y: bv16, n: nat)
    ensures Times(0, y, n) == 0
    decreases n
  {
    assert !IsOdd(0) && Half(0) == 0;
    SumZero(0);
    if n > 0 { TimesNothing(Unshift(y), n - 1); }
  }

  // Shifting a factor shifts the product.
  lemma ProductShift(a: bv16, n: nat)
    ensures Product(Shift(a), Power(n)) == Shift(Product(a, Power(n)))
  {
    hide Shift, Unshift, Sum, Half, IsOdd, Power;
    var y := Power(n);
    var back := Unshift(y);
    ShiftBijective(y);
    HalvedAll(a);
    TimesShort(Half(a), y, 15);
    TimesShift(Half(a), back, 15);
    ShiftBySum(a);
    if IsOdd(a) {
      TimesSum(Half(a), GENERATOR, y, 16);
      GeneratorTimes(n);
      ShiftLinear(y, Times(Half(a), back, 15));
      SumComm(Times(Half(a), y, 15), Shift(y));
    } else {
      SumZero(Times(Half(a), back, 15));
    }
  }

  lemma HalvedAll(a: bv16)
    ensures Halved(Half(a), 15) == 0
  {
    NothingHalved(a);
  }

  /** The product of two powers is the power of the sum. */
  lemma {:induction false} ProductOfPowers(m: nat, n: nat)
    ensures Product(Power(m), Power(n)) == Power(m + n)
    decreases m
  {
    if m == 0 {
      OneTimes(Power(n));
      assert Power(0) == 1;
    } else {
      ProductOfPowers(m - 1, n);
      PowerNext(m - 1);
      PowerNext(m - 1 + n);
      ProductShift(Power(m - 1), n);
      hide Power, Product, Shift;
    }
  }

  // ---------------------------------------------------------------- some powers

  lemma Added(m: nat, a: bv16, n: nat, b: bv16, c: bv16)
    requires Power(m) == a && Power(n) == b && Unrolled(a, b) == c
    ensures Power(m + n) == c
  {
    hide Power, Product, Unrolled;
    ProductUnrolled(a, b);
    ProductOfPowers(m, n);
  }

  lemma Squared(m: nat, a: bv16, c: bv16)
    requires Power(m) == a && Unrolled(a, a) == c
    ensures Power(2 * m) == c
  {
    hide Power, Unrolled;
    Added(m, a, m, a, c);
  }

  lemma PowersTo16()
    requires Power(1) == 0xA001
    ensures Power(2) == 0xF001
    ensures Power(4) == 0xCC01
    ensures Power(8) == 0xC0C1
    ensures Power(16) == 0x9001
  {
    Squared(1, 0xA001, 0xF001);
    Squared(2, 0xF001, 0xCC01);
    Squared(4, 0xCC01, 0xC0C1);
    Squared(8, 0xC0C1, 0x9001);
  }

  lemma PowersTo256()
    requires Power(16) == 0x9001
    ensures Power(32) == 0xFC01
    ensures Power(64) == 0xCCC1
    ensures Power(128) == 0x90C1
    ensures Power(256) == 0xAC01
  {
    Squared(16, 0x9001, 0xFC01);
    Squared(32, 0xFC01, 0xCCC1);
    Squared(64, 0xCCC1, 0x90C1);
    Squared(128, 0x90C1, 0xAC01);
  }

  lemma PowersTo4096()
    requires Power(256) == 0xAC01
    ensures Power(512) == 0xF0C1
    ensures Power(1024) == 0x9C01
    ensures Power(2048) == 0xFCC1
    ensures Power(4096) == 0x9CC1
  {
    Squared(256, 0xAC01, 0xF0C1);
    Squared(512, 0xF0C1, 0x9C01);
    Squared(1024, 0x9C01, 0xFCC1);
    Squared(2048, 0xFCC1, 0x9CC1);
  }

  lemma PowersTo32768()
    requires Power(4096) == 0x9CC1
    ensures Power(8192) == 0xACC1
    ensures Power(16384) == 0xA0C1
    ensures Power(32768) == 0xA001
  {
    Squared(4096, 0x9CC1, 0xACC1);
    Squared(8192, 0xACC1, 0xA0C1);
    Squared(16384, 0xA0C1, 0xA001);
  }

  lemma Power217()
    requires Power(128) == 0x90C1
    requires Power(64) == 0xCCC1
    requires Power(16) == 0x9001
    requires Power(8) == 0xC0C1
    requires Power(1) == 0xA001
    ensures Power(217) == 0x417F
  {
    Added(128, 0x90C1, 64, 0xCCC1, 0x955D);
    Added(192, 0x955D, 16, 0x9001, 0xFFF8);
    Added(208, 0xFFF8, 8, 0xC0C1, 0x82FE);
    Added(216, 0x82FE, 1, 0xA001, 0x417F);
  }

  lemma Power1057()
    requires Power(1024) == 0x9C01
    requires Power(32) == 0xFC01
    requires Power(1) == 0xA001
    ensures Power(1057) == 0xC961
  {
    Added(1024, 0x9C01, 32, 0xFC01, 0xD2C1);
    Added(1056, 0xD2C1, 1, 0xA001, 0xC961);
  }

  lemma Power4681()
    requires Power(4096) == 0x9CC1
    requires Power(512) == 0xF0C1
    requires Power(64) == 0xCCC1
    requires Power(8) == 0xC0C1
    requires Power(1) == 0xA001
    ensures Power(4681) == 0xAA5D
  {
    Added(4096, 0x9CC1, 512, 0xF0C1, 0x876D);
    Added(4608, 0x876D, 64, 0xCCC1, 0xB930);
    Added(4672, 0xB930, 8, 0xC0C1, 0x14B9);
    Added(4680, 0x14B9, 1, 0xA001, 0xAA5D);
  }

  /** The register is back at 1 after 32767 shifts, and not at its largest proper parts. */
  lemma KnownPowers()
    ensures Power(32767) == 1 && Power(217) != 1 && Power(1057) != 1 && Power(4681) != 1
  {
    assert Power(1) == 0xA001 by { assert Shifts(Shift(1), 0) == 0xA001; }
    hide Power;
    PowersTo16();
    PowersTo256();
    PowersTo4096();
    PowersTo32768();
    Power217();
    Power1057();
    Power4681();
    PowerNext(32767);
    ShiftBijective(Power(32767));
    ShiftBijective(1);
    assert Shift(1) == 0xA001;
  }

  // ---------------------------------------------------------------- the order

  const ORDER := 32767

  predicate Returns(d: nat) { Power(d) == 1 }

  lemma ReturnsAdd(a: nat, b: nat)
    requires Returns(a)
    ensures Returns(a + b) <==> Returns(b)
  {
    hide Shifts;
    ShiftsMore(1, a, b);
  }

  lemma {:induction false} ReturnsMultiple(a: nat, k: nat)
    requires Returns(a)
    ensures Returns(k * a)
    decreases k
  {
    if k == 0 {
      assert Power(0) == 1;
    } else {
      ReturnsMultiple(a, k - 1);
      ReturnsAdd(a, (k - 1) * a);
      assert k * a == a + (k - 1) * a;
    }
  }

  // When q*a and q*b shifts both bring the register back, so do q*g for a common measure g of a and b.
  lemma {:induction false} Common(q: nat, a: nat, b: nat) returns (g: nat, m: nat, n: nat)
    requires a > 0 && b > 0 && Returns(q * a) && Returns(q * b)
    ensures g > 0 && Returns(q * g) && a == m * g && b == n * g
    decreases a + b
  {
    hide Returns;
    if a == b {
      g, m, n := a, 1, 1;
    } else if a > b {
      Difference(q, a, b);
      g, m, n := Common(q, a - b, b);
      assert a == m * g + n * g == (m + n) * g;
      m := m + n;
    } else {
      Difference(q, b, a);
      g, m, n := Common(q, a, b - a);
      assert b == m * g + n * g == (m + n) * g;
      n := m + n;
    }
  }

  lemma Difference(q: nat, a: nat, b: nat)
    requires a > b && Returns(q * a) && Returns(q * b)
    ensures Returns(q * (a - b))
  {
    hide Returns;
    assert q * a == q * b + q * (a - b);
    ReturnsAdd(q * b, q * (a - b));
  }

  // The prime factors of 32767 have no factors but themselves and 1.
  lemma PrimeFactor(p: nat, g: nat, n: nat)
    requires (p == 7 || p == 31 || p == 151) && n * g == p
    ensures g == 1 || n == 1
  {
    OneIsSmall(g, n);
    if g <= 12 {
      NoSmallFactor(p, g, n);
    } else {
      assert g * n == p;
      NoSmallFactor(p, n, g);
    }
  }

  lemma BothLarge(g: nat, n: nat)
    requires g >= 13 && n >= 13
    ensures n * g >= 169
  {
    assert (g - 13) * (n - 13) >= 0;
    assert (g - 13) * (n - 13) == n * g - 13 * g - 13 * n + 169;
  }

  lemma OneIsSmall(g: nat, n: nat)
    requires n * g < 169
    ensures g <= 12 || n <= 12
  {
    if g >= 13 && n >= 13 { BothLarge(g, n); }
  }

  lemma NoSmallFactor(p: nat, g: nat, n: nat)
    requires (p == 7 || p == 31 || p == 151) && n * g == p && g <= 12
    ensures g == 1 || n == 1
  {
    assert g == 2 ==> 2 * n == p;
    assert g == 3 ==> 3 * n == p;
    assert g == 4 ==> 4 * n == p;
    assert g == 5 ==> 5 * n == p;
    assert g == 6 ==> 6 * n == p;
    assert g == 7 ==> 7 * n == p;
    assert g == 8 ==> 8 * n == p;
    assert g == 9 ==> 9 * n == p;
    assert g == 10 ==> 10 * n == p;
    assert g == 11 ==> 11 * n == p;
    assert g == 12 ==> 12 * n == p;
  }

  // If a prime does not divide the number of shifts, already the order without that prime brings the register back.
  lemma WithoutPrime(d: nat, p: nat, q: nat)
    requires (p == 7 || p == 31 || p == 151) && q * p == ORDER && Returns(ORDER) && Returns(d) && d % p != 0
    ensures Returns(q)
  {
    hide Returns;
    var k, t := d / p, d % p;
    ReturnsMultiple(d, q);
    ReturnsMultiple(ORDER, k);
    assert q * d == q * (k * p + t) == k * (q * p) + q * t;
    ReturnsAdd(k * ORDER, q * t);
    var g, m, n := Common(q, t, p);
    PrimeFactor(p, g, n);
    FactorBound(m, g, t);
    assert n * g == p && g < p;
    assert q * 1 == q;
  }

  lemma FactorBound(m: nat, g: nat, t: nat)
    requires t == m * g && t > 0
    ensures g <= t
  {
    assert m != 0;
    assert (m - 1) * g >= 0;
  }

  lemma AllPrimesDivide(d: nat)
    requires d % 7 == 0 && d % 31 == 0 && d % 151 == 0
    ensures d % ORDER == 0
  {
    var a, b := d / 7, d / 31;
    var c := 9 * b - 2 * a;
    assert d == 217 * c;
    var e := d / 151;
    var f := 135 * e - 194 * c;
    assert c == 151 * f;
    WholeMultiple(d, f);
  }

  lemma WholeMultiple(d: nat, f: int)
    requires d == ORDER * f
    ensures d % ORDER == 0
  {
  }

  /** Fed zeros only, the register returns to 1 exactly after the multiples of 32767 shifts. */
  lemma ReturnsIff(d: nat)
    ensures Returns(d) <==> d % ORDER == 0
  {
    NotReturning();
    hide Returns;
    if d % ORDER == 0 {
      ReturnsMultiple(ORDER, d / ORDER);
    }
    if Returns(d) {
      if d % 7 != 0 { WithoutPrime(d, 7, 4681); }
      if d % 31 != 0 { WithoutPrime(d, 31, 1057); }
      if d % 151 != 0 { WithoutPrime(d, 151, 217); }
      AllPrimesDivide(d);
    }
  }

  lemma NotReturning()
    ensures Returns(ORDER) && !Returns(217) && !Returns(1057) && !Returns(4681)
  {
    hide Power;
    KnownPowers();
  }

  // ---------------------------------------------------------------- two wrong bits

  lemma {:induction false} FeedSilence(c: bv16, bits: seq<bool>)
    requires forall i :: 0 <= i < |bits| ==> !bits[i]
    ensures Feed(c, bits) == Shifts(c, |bits|)
    decreases bits
  {
    hide Shift, Sum;
    if bits != [] {
      SumZero(c);
      FeedSilence(Shift(c), bits[1..]);
    }
  }

  /** Two wrong bits in an otherwise silent error cancel exactly when they are a multiple of 32767 bits apart. */
  lemma TwoBitsCancelIff(e: seq<bool>, i: nat, j: nat)
    requires i < j < |e| && forall k :: 0 <= k < |e| ==> (e[k] <==> k == i || k == j)
    ensures Feed(0, e) == 0 <==> (j - i) % ORDER == 0
  {
    hide Shift, Sum, Feed, Shifts, Returns, Power;
    var before, between, after := e[..i], e[i + 1..j], e[j + 1..];
    assert e == before + ([true] + (between + ([true] + after)));
    FeedAppend(0, before, [true] + (between + ([true] + after)));
    FeedAppend(Feed(0, before), [true], between + ([true] + after));
    var c := Feed(Feed(0, before), [true]);
    FeedAppend(c, between, [true] + after);
    FeedAppend(Feed(c, between), [true], after);
    FeedZeros(0, before);
    FirstBit();
    FeedSilence(c, between);
    SecondBit(j - i);
    FeedZeros(Feed(Feed(c, between), [true]), after);
    ReturnsIff(j - i);
  }

  lemma FirstBit()
    ensures Feed(0, [true]) == Shift(1)
  {
    assert [true][1..] == [];
    SumZero(1);
  }

  lemma SecondBit(d: nat)
    requires d > 0
    ensures Feed(Shifts(Shift(1), d - 1), [true]) == 0 <==> Returns(d)
  {
    var c := Shifts(Shift(1), d - 1);
    assert c == Power(d);
    assert [true][1..] == [];
    hide Sum, Shift;
    SumCancels(c, 1);
    ShiftZero(Sum(c, 1));
  }
}
