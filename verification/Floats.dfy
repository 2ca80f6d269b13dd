/**
 Floating-point numbers as the program's conversions see them. A finite number is a whole
 multiple of the smallest positive double, 2 to the power of -1074, and that multiple stands
 for it; rounding goes to the nearest number of a format, ties to the even one.
 */
module Floats {
  function Power(e: nat): (p: nat)
    ensures p >= 1
  {
    if e == 0 then 1 else 2 * Power(e - 1)
  }

  // How many significant binary digits a number keeps, and the exponent of the smallest one, counted from the smallest double.
  datatype Format = Format(digits: nat, least: nat)

  const SINGLE := Format(24, 925)
  const DOUBLE := Format(53, 0)

  // The multiple that stands for the number one.
  const ONE_EXPONENT: nat := 1074

  function One(): (n: nat)
    ensures n >= 1
  {
    Power(ONE_EXPONENT)
  }

  // The exponent of the last digit a number of this size keeps.
  function Exponent(f: Format, e: nat, n: nat): (x: nat)
    ensures x >= e && n < Power(f.digits + x)
    ensures x > e ==> n >= Power(f.digits + x - 1)
    decreases n - Power(f.digits + e)
  {
    if n < Power(f.digits + e) then e else Exponent(f, e + 1, n)
  }

  function Nearest(n: nat, u: nat): nat
    requires u >= 1
  {
    var q, r := n / u, n % u;
    if 2 * r < u || (2 * r == u && q % 2 == 0) then q * u else (q + 1) * u
  }

  function Round(f: Format, n: nat): nat {
    Nearest(n, Power(Exponent(f, f.least, n)))
  }

  // Rounding of either sign, and the conversion to an integer, which drops the fraction.
  function Rounded(f: Format, n: int): int {
    if n >= 0 then Round(f, n) else -(Round(f, -n) as int)
  }

  function Whole(n: int): int {
    if n >= 0 then n / One() else -((-n) / One())
  }

  // ---------------------------------------------------------------- powers and multiples

  lemma {:induction false} PowerSum(d: nat, e: nat)
    ensures Power(d + e) == Power(d) * Power(e)
    decreases d
  {
    if d > 0 {
      PowerSum(d - 1, e);
      Regroup(2, Power(d - 1), Power(e));
    }
  }

  lemma Regroup(a: int, b: int, c: int)
    ensures a * b * c == a * (b * c)
  {
  }

  lemma {:induction false} PowerOrder(d: nat, e: nat)
    requires d < e
    ensures 2 * Power(d) <= Power(e)
    decreases e
  {
    if d < e - 1 { PowerOrder(d, e - 1); }
  }

  // A multiple of a larger power is one of a smaller.
  lemma SmallerPower(m: nat, j: nat, x: nat)
    requires x <= j
    ensures m * Power(j) == m * Power(j - x) * Power(x)
  {
    PowerSum(j - x, x);
    Regroup(m, Power(j - x), Power(x));
  }

  lemma DivideMultiple(m: nat, u: nat)
    requires u >= 1
    ensures m * u / u == m && m * u % u == 0
  {
    var q, r := m * u / u, m * u % u;
    assert m * u == q * u + r;
    assert (m - q) * u == r;
    if m > q { TimesAtLeast(m - q, u); }
    if m < q { TimesAtLeast(q - m, u); }
  }

  lemma TimesAtLeast(m: int, u: int)
    requires m >= 1 && u >= 1
    ensures m * u >= u && (-m) * u <= -u
  {
  }

  lemma TimesOrder(a: int, b: int, u: int)
    requires a <= b && u >= 0
    ensures a * u <= b * u
  {
  }

  lemma CancelOrder(a: int, b: int, u: int)
    requires a * u <= b * u && u >= 1
    ensures a <= b
  {
    assert (b + 1) * u == b * u + u;
    if a > b { TimesOrder(b + 1, a, u); }
  }

  // ---------------------------------------------------------------- laws of rounding

  lemma NearestOfMultiple(m: nat, u: nat)
    requires u >= 1
    ensures Nearest(m * u, u) == m * u
  {
    DivideMultiple(m, u);
  }

  lemma NearestIsMultiple(n: nat, u: nat) returns (m: nat)
    requires u >= 1
    ensures Nearest(n, u) == m * u && m <= n / u + 1
  {
    m := if 2 * (n % u) < u || (2 * (n % u) == u && n / u % 2 == 0) then n / u else n / u + 1;
  }

  /** Numbers of few enough digits are not changed by rounding. */
  lemma RoundKeeps(f: Format, n: nat, m: nat, j: nat)
    requires f.digits >= 1 && j >= f.least && n == m * Power(j) && m <= Power(f.digits)
    ensures Round(f, n) == n
  {
    hide *;
    var x := Exponent(f, f.least, n);
    var c := DigitsOf(f.digits, n, m, j, x, f.least);
    RoundOfMultiple(f, n, c);
  }

  lemma DigitsOf(k: nat, n: nat, m: nat, j: nat, x: nat, least: nat) returns (c: nat)
    requires k >= 1 && n == m * Power(j) && m <= Power(k) && j >= least && (x > least ==> n >= Power(k + x - 1))
    ensures n == c * Power(x)
  {
    if x <= j {
      SmallerPower(m, j, x);
      c := m * Power(j - x);
    } else {
      FullDigits(k, m, j, x);
      c := Power(k - 1);
    }
  }

  // With a digit too many a number of so few digits is a power of two.
  lemma FullDigits(k: nat, m: nat, j: nat, x: nat)
    requires k >= 1 && m <= Power(k) && x > j && m * Power(j) >= Power(k + x - 1)
    ensures m * Power(j) == Power(k - 1) * Power(x)
  {
    hide Power;
    TimesOrder(m, Power(k), Power(j));
    PowerSum(k, j);
    PowerSum(k - 1, x);
    if k + j < k + x - 1 { PowerOrder(k + j, k + x - 1); }
    assert k + j == k + x - 1;
  }

  lemma RoundOfMultiple(f: Format, n: nat, c: nat)
    requires n == c * Power(Exponent(f, f.least, n))
    ensures Round(f, n) == n
  {
    NearestOfMultiple(c, Power(Exponent(f, f.least, n)));
  }

  /** With one digit too many, an odd number is changed. */
  lemma RoundLosesOdd(f: Format, n: nat, m: nat, j: nat)
    requires f.digits >= 1 && j >= f.least && n == m * Power(j)
    requires Power(f.digits) < m < 2 * Power(f.digits) && m % 2 == 1
    ensures Round(f, n) != n
  {
    var x := Exponent(f, f.least, n);
    var c := NearestIsMultiple(n, Power(x));
    assert Round(f, n) == c * Power(x) && Power(j + 1) == 2 * Power(j);
    hide Round, Nearest, Exponent, Power;
    OneDigitMore(f.digits, n, m, j, x, f.least);
    Regroup(c, 2, Power(j));
    if c * 2 * Power(j) == m * Power(j) {
      CancelOrder(c * 2, m, Power(j));
      CancelOrder(m, c * 2, Power(j));
    }
  }

  lemma OneDigitMore(k: nat, n: nat, m: nat, j: nat, x: nat, least: nat)
    requires k >= 1 && j >= least && x >= least && n == m * Power(j) && Power(k) < m < 2 * Power(k)
    requires n < Power(k + x) && (x > least ==> n >= Power(k + x - 1))
    ensures x == j + 1
  {
    hide Power;
    SizeOf(k, n, m, j);
    if k + x < k + j { PowerOrder(k + x, k + j); }
    if k + j + 1 < k + x - 1 { PowerOrder(k + j + 1, k + x - 1); }
  }

  lemma SizeOf(k: nat, n: nat, m: nat, j: nat)
    requires n == m * Power(j) && Power(k) < m < 2 * Power(k)
    ensures Power(k + j) <= n < Power(k + j + 1)
  {
    assert Power(k + j + 1) == 2 * Power(k + j);
    hide Power;
    PowerSum(k, j);
    SizeBetween(n, m, Power(k), Power(j));
  }

  lemma SizeBetween(n: nat, m: nat, p: nat, u: nat)
    requires n == m * u && u >= 1 && p < m < 2 * p
    ensures p * u <= n < 2 * (p * u)
  {
    TimesOrder(p, m, u);
    TimesOrder(m + 1, 2 * p, u);
    Regroup(2, p, u);
    assert (m + 1) * u == n + u;
  }

  /** Up to one digit too many, the numbers that rounding keeps are those of few enough digits and the even ones. */
  lemma RoundKeepsIff(f: Format, n: nat, m: nat, j: nat)
    requires f.digits >= 1 && j >= f.least && n == m * Power(j) && m <= 2 * Power(f.digits)
    ensures Round(f, n) == n <==> m <= Power(f.digits) || m % 2 == 0
  {
    hide *;
    if m <= Power(f.digits) {
      RoundKeeps(f, n, m, j);
    } else if m % 2 == 0 {
      var h := m / 2;
      TwiceAsMany(h, m, j);
      RoundKeeps(f, n, h, j + 1);
    } else {
      RoundLosesOdd(f, n, m, j);
    }
  }

  lemma TwiceAsMany(h: nat, m: nat, j: nat)
    requires m == 2 * h
    ensures m * Power(j) == h * Power(j + 1)
  {
    assert Power(j + 1) == 2 * Power(j);
    hide Power;
    Regroup(h, 2, Power(j));
  }

  /** Rounding twice is rounding once. */
  lemma RoundTwice(f: Format, n: nat)
    requires f.digits >= 1
    ensures Round(f, Round(f, n)) == Round(f, n)
  {
    var x := Exponent(f, f.least, n);
    var m := NearestIsMultiple(n, Power(x));
    PowerSum(f.digits, x);
    QuotientBelow(n, Power(f.digits), Power(x));
    RoundKeeps(f, Round(f, n), m, x);
  }

  lemma QuotientBelow(n: nat, k: nat, u: nat)
    requires u >= 1 && n < k * u
    ensures n / u < k
  {
    assert n == n / u * u + n % u;
    if k <= n / u { TimesOrder(k, n / u, u); }
  }

  /** A whole number rounds to a whole number. */
  lemma RoundOfWhole(f: Format, m: nat, j: nat) returns (w: nat)
    requires f.digits >= 1
    ensures Round(f, m * Power(j)) == w * Power(j)
  {
    var n := m * Power(j);
    var x := Exponent(f, f.least, n);
    if x <= j {
      SmallerPower(m, j, x);
      NearestOfMultiple(m * Power(j - x), Power(x));
      w := m;
    } else {
      var c := NearestIsMultiple(n, Power(x));
      SmallerPower(c, x, j);
      w := c * Power(x - j);
    }
  }

  /** Rounding does not go beyond a power of two. */
  lemma RoundBelow(f: Format, n: nat, j: nat)
    requires f.digits >= 1 && j >= f.least && n <= Power(j)
    ensures Round(f, n) <= Power(j)
  {
    var x := Exponent(f, f.least, n);
    if x <= j {
      var u, c := Power(x), Power(j - x);
      PowerSum(j - x, x);
      NearestBelow(n, c, u);
    } else {
      PowerOrder(j, f.digits + x);
      if f.digits + x - 1 > j { PowerOrder(j, f.digits + x - 1); }
      assert false;
    }
  }

  lemma NearestBelow(n: nat, c: nat, u: nat)
    requires u >= 1 && n <= c * u
    ensures Nearest(n, u) <= c * u
  {
    var q := n / u;
    assert n == q * u + n % u;
    CancelOrder(q, c, u);
    if q < c { TimesOrder(q + 1, c, u); } else { DivideMultiple(c, u); }
  }

  // ---------------------------------------------------------------- there and back through an integer

  /**
   A number cut to an integer of so many bits and rounded back is the number it was exactly
   when it is not negative, has no fraction and not too many bits, and is one of the format.
   What is cut may be rounded before, or not.
   */
  lemma ReturnsIff(f: Format, bits: nat, n: int, cut: int)
    requires f.digits >= 1 && f.least <= ONE_EXPONENT && (Rounded(f, n) == n ==> cut == Whole(n))
    ensures Rounded(f, cut % Power(bits) * One()) == n
       <==> n >= 0 && n % One() == 0 && n / One() < Power(bits) && Rounded(f, n) == n
  {
    var m := cut % Power(bits);
    hide *;
    if Rounded(f, m * One()) == n { RoundedIsWhole(f, bits, n, m, cut); }
    if n >= 0 && n % One() == 0 && n / One() < Power(bits) && Rounded(f, n) == n { CutIsWhole(n, One(), Power(bits)); WholeIs(n); }
  }

  lemma WholeIs(n: nat)
    ensures Whole(n) == n / One()
  {
    hide One;
  }

  lemma CutIsWhole(n: nat, one: nat, p: nat)
    requires one >= 1 && p >= 1 && n % one == 0 && n / one < p
    ensures n / one % p * one == n
  {
    assert n == n / one * one + n % one;
    SmallRemainder(n / one, p);
  }

  lemma SmallRemainder(q: nat, p: nat)
    requires q < p
    ensures q % p == q
  {
  }

  lemma RoundedIsWhole(f: Format, bits: nat, n: int, m: nat, cut: int)
    requires f.digits >= 1 && f.least <= ONE_EXPONENT && (Rounded(f, n) == n ==> cut == Whole(n))
    requires m == cut % Power(bits) && Rounded(f, m * One()) == n
    ensures n >= 0 && n % One() == 0 && n / One() < Power(bits) && Rounded(f, n) == n
  {
    TimesOrder(0, m, One());
    var whole: nat := m * One();
    assert n == Round(f, whole);
    assert One() == Power(ONE_EXPONENT);
    hide *;
    RoundTwice(f, whole);
    RoundedIs(f, n);
    WholeIs(n);
    var w := RoundOfWhole(f, m, ONE_EXPONENT);
    TimesOrder(m, Power(bits), One());
    PowerSum(bits, ONE_EXPONENT);
    RoundBelow(f, whole, bits + ONE_EXPONENT);
    NothingRounds(f);
    CutFits(n, One(), Power(bits), w);
  }

  lemma RoundedIs(f: Format, n: nat)
    ensures Rounded(f, n) == Round(f, n)
  {
    hide Round;
  }

  lemma CutFits(n: nat, one: nat, p: nat, w: nat)
    requires one >= 1 && p >= 1 && n == w * one && n <= p * one && (n / one % p == 0 ==> n == 0)
    ensures n % one == 0 && n / one < p
  {
    DivideMultiple(w, one);
    CancelOrder(w, p, one);
    if w == p { DivideMultiple(1, p); TimesAtLeast(p, one); }
  }

  lemma NothingRounds(f: Format)
    requires f.digits >= 1
    ensures Round(f, 0) == 0
  {
    RoundKeeps(f, 0, 0, f.least);
  }
}
