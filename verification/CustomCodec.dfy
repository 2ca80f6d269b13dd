/**
 The configurable binary protocol: field codecs for either byte order, parameter blocks,
 command frames and responses. Numbers are the program's ints, or floats as multiples of the
 smallest one; strings are their bytes.
 */
module CustomCodec {
  import opened Wrappers
  import opened Bytes
  import opened Floats
  import opened Words
  import opened SerialFrame

  datatype Field = Field(name: string, fieldType: string, size: int, offset: int)

  // What a caller may pass for a field, and what decoding returns.
  datatype Datum = Number(n: int) | Float(n: int) | Text(text: seq<Byte>) | Raw(raw: seq<Byte>)

  // Decoding can also refuse a type, or run off the end of its data and stop the program.
  datatype Decoded = Got(value: Datum) | Refused | Crash

  const TWO8 := 0x100
  const TWO16 := 0x1_0000
  const TWO32 := 0x1_0000_0000
  const TWO64 := 0x1_0000_0000_0000_0000

  predicate IsInteger(t: string) {
    t == "int8" || t == "uint8" || t == "int16" || t == "uint16" || t == "int32" || t == "uint32"
  }

  // Floats travel as unsigned integers of their value, not of their bits.
  predicate IsFloat(t: string) { t == "float32" || t == "float64" }

  predicate IsNumeric(t: string) { IsInteger(t) || IsFloat(t) }

  predicate IsSigned(t: string) { t == "int8" || t == "int16" || t == "int32" }

  function Width(t: string): nat
    requires IsNumeric(t)
  {
    if t == "int8" || t == "uint8" then 1 else if t == "int16" || t == "uint16" then 2 else if t == "float64" then 8 else 4
  }

  function Modulus(t: string): int
    requires IsNumeric(t)
  {
    if Width(t) == 1 then TWO8 else if Width(t) == 2 then TWO16 else if Width(t) == 4 then TWO32 else TWO64
  }

  // The numbers a field type can hold.
  predicate InRange(t: string, n: int)
    requires IsNumeric(t)
  {
    if IsSigned(t) then -Modulus(t) <= 2 * n < Modulus(t) else 0 <= n < Modulus(t)
  }

  // ---------------------------------------------------------------- byte order

  function Put16(big: bool, n: int): seq<Byte> {
    if big then [ToByte(n / TWO8), ToByte(n)] else [ToByte(n), ToByte(n / TWO8)]
  }

  function Get16(big: bool, data: seq<Byte>): int
    requires |data| >= 2
  {
    if big then Value(data[0]) * TWO8 + Value(data[1]) else Value(data[1]) * TWO8 + Value(data[0])
  }

  function Put32(big: bool, n: int): seq<Byte> {
    if big then [ToByte(n / 0x100_0000), ToByte(n / TWO16), ToByte(n / TWO8), ToByte(n)]
    else [ToByte(n), ToByte(n / TWO8), ToByte(n / TWO16), ToByte(n / 0x100_0000)]
  }

  function Get32(big: bool, data: seq<Byte>): int
    requires |data| >= 4
  {
    if big then Value(data[0]) * 0x100_0000 + Value(data[1]) * TWO16 + Value(data[2]) * TWO8 + Value(data[3])
    else Value(data[3]) * 0x100_0000 + Value(data[2]) * TWO16 + Value(data[1]) * TWO8 + Value(data[0])
  }

  lemma Digits32(n: int)
    requires 0 <= n < TWO32
    ensures n / 0x100_0000 % TWO8 * 0x100_0000 + n / TWO16 % TWO8 * TWO16 + n / TWO8 % TWO8 * TWO8 + n % TWO8 == n
  {
    var q1 := n / TWO8;
    var q2 := q1 / TWO8;
    var q3 := q2 / TWO8;
    DivideTwice(n);
    assert q3 < TWO8;
  }

  lemma DivideTwice(n: int)
    ensures n / TWO16 == n / TWO8 / TWO8 && n / 0x100_0000 == n / TWO8 / TWO8 / TWO8
  {
  }

  lemma RoundTrip16(big: bool, n: int)
    requires 0 <= n < TWO16
    ensures |Put16(big, n)| == 2 && Get16(big, Put16(big, n)) == n
  {
    hide Put16, Get16;
    SplitField(n);
    assert n % TWO16 == n;
    TwoBytes(big, n);
  }

  lemma TwoBytes(big: bool, n: int)
    ensures |Put16(big, n)| == 2 && Get16(big, Put16(big, n)) == n / TWO8 % TWO8 * TWO8 + n % TWO8
  {
    hide ToByte;
  }

  lemma FourBytes(big: bool, n: int)
    ensures |Put32(big, n)| == 4
    ensures Get32(big, Put32(big, n)) == n / 0x100_0000 % TWO8 * 0x100_0000 + n / TWO16 % TWO8 * TWO16 + n / TWO8 % TWO8 * TWO8 + n % TWO8
  {
    hide ToByte, Value;
    var b3, b2, b1, b0 := ToByte(n / 0x100_0000), ToByte(n / TWO16), ToByte(n / TWO8), ToByte(n);
    assert Put32(big, n) == if big then [b3, b2, b1, b0] else [b0, b1, b2, b3];
    FourValues(big, b3, b2, b1, b0);
  }

  lemma FourValues(big: bool, b3: Byte, b2: Byte, b1: Byte, b0: Byte)
    ensures Get32(big, if big then [b3, b2, b1, b0] else [b0, b1, b2, b3])
         == Value(b3) * 0x100_0000 + Value(b2) * TWO16 + Value(b1) * TWO8 + Value(b0)
  {
    hide Value;
  }

  lemma RoundTrip32(big: bool, n: int)
    requires 0 <= n < TWO32
    ensures |Put32(big, n)| == 4 && Get32(big, Put32(big, n)) == n
  {
    hide Put32, Get32;
    Digits32(n);
    FourBytes(big, n);
  }

  function Put64(big: bool, n: int): seq<Byte> {
    if big then Put32(big, n / TWO32) + Put32(big, n % TWO32) else Put32(big, n % TWO32) + Put32(big, n / TWO32)
  }

  function Get64(big: bool, data: seq<Byte>): int
    requires |data| >= 8
  {
    if big then Get32(big, data[..4]) * TWO32 + Get32(big, data[4..8]) else Get32(big, data[4..8]) * TWO32 + Get32(big, data[..4])
  }

  lemma RoundTrip64(big: bool, n: int)
    requires 0 <= n < TWO64
    ensures |Put64(big, n)| == 8 && Get64(big, Put64(big, n)) == n
  {
    hide Put32, Get32;
    var hi, lo := n / TWO32, n % TWO32;
    RoundTrip32(big, hi);
    RoundTrip32(big, lo);
    var data := Put64(big, n);
    assert data[..4] == Put32(big, if big then hi else lo) && data[4..8] == Put32(big, if big then lo else hi);
  }

  // ---------------------------------------------------------------- field codecs

  // An unsigned number of so many bytes.
  function Put(big: bool, width: nat, n: int): seq<Byte> {
    if width == 1 then [ToByte(n)] else if width == 2 then Put16(big, n) else if width == 4 then Put32(big, n) else Put64(big, n)
  }

  function Get(big: bool, width: nat, data: seq<Byte>): int
    requires (width == 1 || width == 2 || width == 4 || width == 8) && |data| >= width
  {
    if width == 1 then Value(data[0]) else if width == 2 then Get16(big, data) else if width == 4 then Get32(big, data) else Get64(big, data)
  }

  lemma RoundTripWide(big: bool, width: nat, n: int)
    requires (width == 1 && 0 <= n < TWO8) || (width == 2 && 0 <= n < TWO16) || (width == 4 && 0 <= n < TWO32) || (width == 8 && 0 <= n < TWO64)
    ensures |Put(big, width, n)| == width && Get(big, width, Put(big, width, n)) == n
  {
    hide Put16, Get16, Put32, Get32, Put64, Get64, ToByte, Value;
    match width
    case 1 =>
    case 2 => RoundTrip16(big, n);
    case 4 => RoundTrip32(big, n);
    case _ => RoundTrip64(big, n);
  }

  lemma RoundTrip(big: bool, t: string, n: int)
    requires IsNumeric(t) && 0 <= n < Modulus(t)
    ensures |Put(big, Width(t), n)| == Width(t) && Get(big, Width(t), Put(big, Width(t), n)) == n
  {
    hide Put, Get;
    RoundTripWide(big, Width(t), n);
  }

  // The Go type of a number has to fit the field's; a conversion to a narrower unsigned type keeps the low bits.
  predicate Fits(t: string, v: Datum) {
    (IsInteger(t) && v.Number?) || (IsFloat(t) && v.Float?)
  }

  function FormatOf(t: string): Format {
    if t == "float32" then SINGLE else DOUBLE
  }

  // The integer that is put on the line: of a float what is left without its fraction, after rounding it to the field's type.
  function Cut(t: string, n: int): int {
    if t == "float32" then Whole(Rounded(SINGLE, n)) else if t == "float64" then Whole(n) else n
  }

  function EncodeField(big: bool, t: string, v: Datum): Option<seq<Byte>> {
    if Fits(t, v) then Some(Put(big, Width(t), Cut(t, v.n) % Modulus(t)))
    else if t == "string" && v.Text? then Some(v.text)
    else if t == "bytes" && v.Raw? then Some(v.raw)
    else None
  }

  // A signed type reads the upper half of the range as negative.
  function Signed(t: string, u: int): int
    requires IsNumeric(t)
  {
    if IsSigned(t) && 2 * u >= Modulus(t) then u - Modulus(t) else u
  }

  // The number in its Go type; not every integer is a float.
  function Typed(t: string, n: int): Datum {
    if IsFloat(t) then Float(Rounded(FormatOf(t), n * One())) else Number(n)
  }

  function DecodeField(big: bool, t: string, data: seq<Byte>): Decoded {
    if IsNumeric(t) then
      if |data| < Width(t) then Crash else Got(Typed(t, Signed(t, Get(big, Width(t), data))))
    else if t == "string" then Got(Text(data))
    else if t == "bytes" then Got(Raw(data))
    else Refused
  }

  // What comes back after encoding: a number modulo its type's range, everything else as it was.
  function Narrowed(t: string, v: Datum): Datum {
    if Fits(t, v) then Typed(t, Signed(t, Cut(t, v.n) % Modulus(t))) else v
  }

  // The values that come back as they were: an integer in range; a float in range that is a whole number and one of the field's format.
  predicate Returns(t: string, v: Datum) {
    if !Fits(t, v) then true
    else if IsFloat(t) then v.n >= 0 && v.n % One() == 0 && v.n / One() < Modulus(t) && Rounded(FormatOf(t), v.n) == v.n
    else InRange(t, v.n)
  }

  lemma IntegerReturns(t: string, v: Datum)
    requires IsInteger(t) && Fits(t, v)
    ensures Narrowed(t, v) == v <==> Returns(t, v)
  {
    hide Rounded, One;
    assert Typed(t, Signed(t, v.n % Modulus(t))) == Number(Signed(t, v.n % Modulus(t))) && Cut(t, v.n) == v.n;
    hide Typed, Cut;
    Remainders(v.n);
  }

  // Numbers at most one period away from their remainder.
  lemma Remainders(n: int)
    ensures 0 <= n < TWO8 ==> n % TWO8 == n
    ensures -TWO8 <= n < 0 ==> n % TWO8 == n + TWO8
    ensures 0 <= n < TWO16 ==> n % TWO16 == n
    ensures -TWO16 <= n < 0 ==> n % TWO16 == n + TWO16
    ensures 0 <= n < TWO32 ==> n % TWO32 == n
    ensures -TWO32 <= n < 0 ==> n % TWO32 == n + TWO32
  {
  }

  lemma FloatReturns(t: string, v: Datum)
    requires IsFloat(t) && Fits(t, v)
    ensures Narrowed(t, v) == v <==> Returns(t, v)
  {
    WideModulus(t);
    hide Rounded, Whole, One, Power;
    ReturnsIff(FormatOf(t), 8 * Width(t), v.n, Cut(t, v.n));
  }

  lemma WideModulus(t: string)
    requires IsFloat(t)
    ensures Modulus(t) == Power(8 * Width(t))
  {
    assert Power(8) == TWO8;
    PowerSum(8, 8);
    PowerSum(16, 16);
    PowerSum(32, 32);
  }

  /** Of the whole numbers up to 2 to the power of 25, a float32 field returns the first half and the even ones of the second. */
  lemma SingleReturnsIff(m: nat, n: nat)
    requires m <= 2 * Power(24) && n == m * One()
    ensures Returns("float32", Float(n)) <==> m <= Power(24) || m % 2 == 0
  {
    SmallSingle(m);
    DivideMultiple(m, One());
    hide *;
    WholeFloat(m, n);
    RoundKeepsIff(SINGLE, n, m, ONE_EXPONENT);
  }

  /** And a float64 field in the same way those up to 2 to the power of 54. */
  lemma DoubleReturnsIff(m: nat, n: nat)
    requires m <= 2 * Power(53) && n == m * One()
    ensures Returns("float64", Float(n)) <==> m <= Power(53) || m % 2 == 0
  {
    SmallDouble(m);
    DivideMultiple(m, One());
    hide *;
    WholeDouble(m, n);
    RoundKeepsIff(DOUBLE, n, m, ONE_EXPONENT);
  }

  lemma SmallDouble(m: nat)
    requires m <= 2 * Power(53)
    ensures m < TWO64
  {
    assert Power(8) == TWO8 && Power(5) == 32;
    PowerSum(8, 8);
    PowerSum(16, 16);
    PowerSum(32, 16);
    PowerSum(48, 5);
  }

  lemma WholeDouble(m: nat, n: nat)
    requires n % One() == 0 && n / One() == m && m < TWO64
    ensures Returns("float64", Float(n)) <==> Round(DOUBLE, n) == n
  {
    hide One, Round;
  }

  lemma SmallSingle(m: nat)
    requires m <= 2 * Power(24)
    ensures m < TWO32
  {
    assert Power(8) == TWO8;
    PowerSum(8, 8);
    PowerSum(16, 8);
  }

  lemma WholeFloat(m: nat, n: nat)
    requires n % One() == 0 && n / One() == m && m < TWO32
    ensures Returns("float32", Float(n)) <==> Round(SINGLE, n) == n
  {
    hide One, Round;
  }

  /** For either byte order a field that encodes decodes again, to its value cut to the range of its type: to the very value exactly when an integer is in range, and when a float is in range, without fraction and of few enough digits. */
  lemma FieldRoundTrip(big: bool, t: string, v: Datum)
    requires EncodeField(big, t, v).Some?
    ensures DecodeField(big, t, EncodeField(big, t, v).value) == Got(Narrowed(t, v))
    ensures Narrowed(t, v) == v <==> Returns(t, v)
  {
    if Fits(t, v) {
      if IsFloat(t) { FloatReturns(t, v); } else { IntegerReturns(t, v); }
    }
    hide Put, Get, Signed, InRange, Typed, Cut, Returns;
    if Fits(t, v) {
      RoundTrip(big, t, Cut(t, v.n) % Modulus(t));
    }
  }

  // ---------------------------------------------------------------- what is on the line

  // The i-th digit of a number to the base 256, the lowest first.
  function Digit256(n: int, i: nat): int
    decreases i
  {
    if i == 0 then n % 256 else Digit256(n / 256, i - 1)
  }

  // These bytes are the lowest digits of a number, highest first or lowest first.
  ghost predicate IsDigits(big: bool, data: seq<Byte>, width: nat, n: int) {
    |data| == width && forall i :: 0 <= i < width ==> Value(data[if big then width - 1 - i else i]) == Digit256(n, i)
  }

  lemma Digits16(big: bool, n: int)
    ensures IsDigits(big, Put16(big, n), 2, n)
  {
    hide ToByte, Value;
    assert Digit256(n, 1) == Digit256(n / 256, 0);
  }

  lemma DigitsOf32(big: bool, n: int)
    ensures IsDigits(big, Put32(big, n), 4, n)
  {
    hide ToByte, Value;
    DivideTwice(n);
    var q1 := n / 256;
    var q2 := q1 / 256;
    assert Digit256(n, 1) == Digit256(q1, 0);
    assert Digit256(n, 2) == Digit256(q1, 1) == Digit256(q2, 0);
    assert Digit256(n, 3) == Digit256(q1, 2) == Digit256(q2, 1) == Digit256(q2 / 256, 0);
  }

  lemma LowDigits(n: int, i: nat)
    requires i < 4
    ensures Digit256(n % TWO32, i) == Digit256(n, i)
    ensures Digit256(n, i + 4) == Digit256(n / TWO32, i)
  {
    var r, q := n % TWO32, n / TWO32;
    var n1, r1 := n / 256, r / 256;
    assert n == TWO32 * q + r && n1 == 0x100_0000 * q + r1;
    var n2, r2 := n1 / 256, r1 / 256;
    assert n2 == TWO16 * q + r2;
    var n3, r3 := n2 / 256, r2 / 256;
    assert n3 == 256 * q + r3;
    assert n3 / 256 == q;
    assert Digit256(n, i + 4) == Digit256(n1, i + 3) == Digit256(n2, i + 2) == Digit256(n3, i + 1) == Digit256(q, i);
    assert Digit256(r, 1) == Digit256(r1, 0) && Digit256(n, 1) == Digit256(n1, 0);
    assert Digit256(r, 2) == Digit256(r1, 1) == Digit256(r2, 0) && Digit256(n, 2) == Digit256(n1, 1) == Digit256(n2, 0);
    assert Digit256(r, 3) == Digit256(r1, 2) == Digit256(r2, 1) == Digit256(r3, 0);
    assert Digit256(n, 3) == Digit256(n1, 2) == Digit256(n2, 1) == Digit256(n3, 0);
  }

  lemma DigitsOf64(big: bool, n: int)
    ensures IsDigits(big, Put64(big, n), 8, n)
  {
    DigitsOf32(big, n % TWO32);
    DigitsOf32(big, n / TWO32);
    hide Put32, IsDigits;
    JoinDigits(big, Put32(big, n % TWO32), Put32(big, n / TWO32), n);
  }

  lemma JoinDigits(big: bool, lo: seq<Byte>, hi: seq<Byte>, n: int)
    requires IsDigits(big, lo, 4, n % TWO32) && IsDigits(big, hi, 4, n / TWO32)
    ensures IsDigits(big, if big then hi + lo else lo + hi, 8, n)
  {
    hide Value, Digit256;
    var data := if big then hi + lo else lo + hi;
    forall i | 0 <= i < 8 ensures Value(data[if big then 8 - 1 - i else i]) == Digit256(n, i) {
      if i < 4 { JoinLow(big, lo, hi, n, i); } else { JoinHigh(big, lo, hi, n, i); }
    }
  }

  lemma JoinLow(big: bool, lo: seq<Byte>, hi: seq<Byte>, n: int, i: nat)
    requires IsDigits(big, lo, 4, n % TWO32) && |hi| == 4 && i < 4
    ensures Value((if big then hi + lo else lo + hi)[if big then 7 - i else i]) == Digit256(n, i)
  {
    hide Value, Digit256;
    LowDigits(n, i);
    assert (if big then hi + lo else lo + hi)[if big then 7 - i else i] == lo[if big then 4 - 1 - i else i];
  }

  lemma JoinHigh(big: bool, lo: seq<Byte>, hi: seq<Byte>, n: int, i: nat)
    requires IsDigits(big, hi, 4, n / TWO32) && |lo| == 4 && 4 <= i < 8
    ensures Value((if big then hi + lo else lo + hi)[if big then 7 - i else i]) == Digit256(n, i)
  {
    hide Value, Digit256;
    var k := i - 4;
    LowDigits(n, k);
    assert (if big then hi + lo else lo + hi)[if big then 7 - i else i] == hi[if big then 4 - 1 - k else k];
  }

  /**
   What a field is encoded to, type by type: numbers as the lowest base-256 digits of their
   value reduced to the type's width, in the byte order of the configuration; texts and bytes
   as they are; and nothing else is encoded at all.
   */
  lemma EncodedBytes(big: bool, t: string, v: Datum)
    ensures EncodeField(big, t, v).Some? <==>
              || (v.Number? && t in {"int8", "uint8", "int16", "uint16", "int32", "uint32"})
              || (v.Float? && t in {"float32", "float64"}) || (v.Text? && t == "string") || (v.Raw? && t == "bytes")
    ensures v.Text? && t == "string" ==> EncodeField(big, t, v).value == v.text
    ensures v.Raw? && t == "bytes" ==> EncodeField(big, t, v).value == v.raw
    ensures v.Number? && t in {"int8", "uint8"} ==> IsDigits(big, EncodeField(big, t, v).value, 1, v.n % 0x100)
    ensures v.Number? && t in {"int16", "uint16"} ==> IsDigits(big, EncodeField(big, t, v).value, 2, v.n % 0x1_0000)
    ensures v.Number? && t in {"int32", "uint32"} ==> IsDigits(big, EncodeField(big, t, v).value, 4, v.n % 0x1_0000_0000)
    ensures v.Float? && t == "float32" ==>
              IsDigits(big, EncodeField(big, t, v).value, 4, Whole(Rounded(Format(24, 925), v.n)) % 0x1_0000_0000)
    ensures v.Float? && t == "float64" ==>
              IsDigits(big, EncodeField(big, t, v).value, 8, Whole(v.n) % 0x1_0000_0000_0000_0000)
  {
    hide Put16, Put32, Put64, ToByte, Value, Whole, Rounded, IsDigits;
    if Fits(t, v) {
      var n := Cut(t, v.n) % Modulus(t);
      OneByte(big, n);
      Digits16(big, n);
      DigitsOf32(big, n);
      DigitsOf64(big, n);
    }
  }

  lemma OneByte(big: bool, n: int)
    ensures IsDigits(big, [ToByte(n)], 1, n)
  {
    hide ToByte, Value;
  }

  /** Decoding runs off its data exactly when a numeric field has fewer bytes than its type, and refuses exactly the unknown types; the integers that come back as they were are those in the range of their type. */
  lemma DecodedTypes(big: bool, t: string, data: seq<Byte>)
    ensures DecodeField(big, t, data) == Crash <==>
              || (t in {"int8", "uint8"} && |data| < 1) || (t in {"int16", "uint16"} && |data| < 2)
              || (t in {"int32", "uint32", "float32"} && |data| < 4) || (t == "float64" && |data| < 8)
    ensures DecodeField(big, t, data) == Refused <==>
              t !in {"int8", "uint8", "int16", "uint16", "int32", "uint32", "float32", "float64", "string", "bytes"}
    ensures forall n :: t == "int8" ==> (Returns(t, Number(n)) <==> -0x80 <= n < 0x80)
    ensures forall n :: t == "uint8" ==> (Returns(t, Number(n)) <==> 0 <= n < 0x100)
    ensures forall n :: t == "int16" ==> (Returns(t, Number(n)) <==> -0x8000 <= n < 0x8000)
    ensures forall n :: t == "uint16" ==> (Returns(t, Number(n)) <==> 0 <= n < 0x1_0000)
    ensures forall n :: t == "int32" ==> (Returns(t, Number(n)) <==> -0x8000_0000 <= n < 0x8000_0000)
    ensures forall n :: t == "uint32" ==> (Returns(t, Number(n)) <==> 0 <= n < 0x1_0000_0000)
  {
    hide Get, Signed, Typed;
  }

  /** A numeric field reads its first bytes only. */
  lemma DecodesFirst(big: bool, t: string, data: seq<Byte>, width: nat)
    requires (t in {"int8", "uint8"} && width == 1) || (t in {"int16", "uint16"} && width == 2)
             || (t in {"int32", "uint32", "float32"} && width == 4) || (t == "float64" && width == 8)
    requires |data| >= width
    ensures DecodeField(big, t, data) == DecodeField(big, t, data[..width])
  {
    hide Typed, Signed, Get32, Get16;
    if width == 8 {
      assert data[..width][..4] == data[..4] && data[..width][4..8] == data[4..8];
    } else {
      GetsFirst(big, data, width);
    }
  }

  lemma GetsFirst(big: bool, data: seq<Byte>, width: nat)
    requires (width == 1 || width == 2 || width == 4) && |data| >= width
    ensures Get(big, width, data) == Get(big, width, data[..width])
  {
    hide Value;
  }

  // ---------------------------------------------------------------- parameter blocks

  type Params = map<string, Datum>

  // The encodings of the fields that have a value, one after the other; None when one does not encode.
  function EncodeAll(big: bool, fields: seq<Field>, params: Params): Option<seq<Byte>> {
    if fields == [] then Some([])
    else
      var f := fields[|fields| - 1];
      var before := EncodeAll(big, fields[..|fields| - 1], params);
      if before.None? || f.name !in params then before
      else
        var encoded := EncodeField(big, f.fieldType, params[f.name]);
        if encoded.None? then None else Some(before.value + encoded.value)
  }

  /** Appends field after field, skipping those without a value. */
  method EncodeParameters(big: bool, fields: seq<Field>, params: Params) returns (data: Option<seq<Byte>>)
    ensures data == EncodeAll(big, fields, params)
  {
    var block: seq<Byte> := [];
    for i := 0 to |fields|
      invariant EncodeAll(big, fields[..i], params) == Some(block)
    {
      var field := fields[i];
      assert fields[..i + 1][..i] == fields[..i];
      if field.name in params {
        var encoded := EncodeField(big, field.fieldType, params[field.name]);
        if encoded.None? {
          FailureStays(big, fields, params, i + 1);
          return None;
        }
        block := block + encoded.value;
      }
    }
    assert fields[..|fields|] == fields;
    return Some(block);
  }

  lemma {:induction false} FailureStays(big: bool, fields: seq<Field>, params: Params, k: nat)
    requires k <= |fields| && EncodeAll(big, fields[..k], params).None?
    ensures EncodeAll(big, fields, params).None?
    decreases |fields|
  {
    if k < |fields| {
      assert fields[..|fields| - 1][..k] == fields[..k];
      FailureStays(big, fields[..|fields| - 1], params, k);
    } else {
      assert fields[..k] == fields;
    }
  }

  // Every field has a value and says where its encoding lies: after those before it, and as long as it is.
  ghost predicate LaidOut(big: bool, fields: seq<Field>, params: Params) {
    forall i :: 0 <= i < |fields| ==>
      && fields[i].name in params
      && EncodeField(big, fields[i].fieldType, params[fields[i].name]).Some?
      && EncodeAll(big, fields[..i], params).Some?
      && fields[i].offset == |EncodeAll(big, fields[..i], params).value|
      && fields[i].size == |EncodeField(big, fields[i].fieldType, params[fields[i].name]).value|
  }

  // The part of a block that a field claims.
  function Slice(data: seq<Byte>, f: Field): seq<Byte>
    requires 0 <= f.offset && 0 <= f.size && f.offset + f.size <= |data|
  {
    data[f.offset..f.offset + f.size]
  }

  lemma {:induction false} SliceIsEncoding(big: bool, fields: seq<Field>, params: Params, i: nat)
    requires LaidOut(big, fields, params) && i < |fields|
    ensures EncodeAll(big, fields, params).Some?
    ensures var data := EncodeAll(big, fields, params).value;
            && 0 <= fields[i].offset && 0 <= fields[i].size && fields[i].offset + fields[i].size <= |data|
            && Slice(data, fields[i]) == EncodeField(big, fields[i].fieldType, params[fields[i].name]).value
    decreases fields
  {
    hide EncodeField;
    var last := |fields| - 1;
    var shorter := fields[..last];
    var encoded := EncodeField(big, fields[last].fieldType, params[fields[last].name]).value;
    assert EncodeAll(big, fields, params) == Some(EncodeAll(big, shorter, params).value + encoded);
    if i < last {
      ShorterLaidOut(big, fields, params);
      hide LaidOut, EncodeAll;
      SliceIsEncoding(big, shorter, params, i);
      assert shorter[i] == fields[i];
      SliceOfFirst(EncodeAll(big, shorter, params).value, encoded, fields[i]);
    } else {
      hide LaidOut, EncodeAll;
      SliceOfSecond(EncodeAll(big, shorter, params).value, encoded, fields[i]);
    }
  }

  lemma SliceOfFirst(a: seq<Byte>, b: seq<Byte>, f: Field)
    requires 0 <= f.offset && 0 <= f.size && f.offset + f.size <= |a|
    ensures Slice(a + b, f) == Slice(a, f)
  {
  }

  lemma SliceOfSecond(a: seq<Byte>, b: seq<Byte>, f: Field)
    requires f.offset == |a| && f.size == |b|
    ensures Slice(a + b, f) == b
  {
  }

  lemma ShorterLaidOut(big: bool, fields: seq<Field>, params: Params)
    requires LaidOut(big, fields, params) && fields != []
    ensures LaidOut(big, fields[..|fields| - 1], params)
  {
    hide EncodeField, EncodeAll;
    var shorter := fields[..|fields| - 1];
    assert forall k :: 0 <= k <= |shorter| ==> shorter[..k] == fields[..k];
  }

  /** A parameter block whose fields are laid out as prefix sums decodes field by field to the values it was made from: numbers cut to their range, so the very values exactly when they return, and strings and bytes unchanged. */
  lemma BlockRoundTrip(big: bool, fields: seq<Field>, params: Params, i: nat)
    requires LaidOut(big, fields, params) && i < |fields|
    ensures EncodeAll(big, fields, params).Some?
    ensures var data, f := EncodeAll(big, fields, params).value, fields[i];
            && 0 <= f.offset && 0 <= f.size && f.offset + f.size <= |data|
            && DecodeField(big, f.fieldType, Slice(data, f)) == Got(Narrowed(f.fieldType, params[f.name]))
            && (Narrowed(f.fieldType, params[f.name]) == params[f.name] <==> Returns(f.fieldType, params[f.name]))
  {
    SliceIsEncoding(big, fields, params, i);
    FieldRoundTrip(big, fields[i].fieldType, params[fields[i].name]);
  }

  // ---------------------------------------------------------------- responses

  // The fields of a response that lie within it and decode, by name; a later field replaces an earlier one of its name.
  function Parsed(big: bool, fields: seq<Field>, data: seq<Byte>): Option<Params> {
    if fields == [] then Some(map[])
    else
      var f := fields[|fields| - 1];
      var before := Parsed(big, fields[..|fields| - 1], data);
      if before.None? || f.offset + f.size > |data| then before
      else if f.offset < 0 || f.size < 0 then None
      else
        match DecodeField(big, f.fieldType, Slice(data, f))
        case Got(v) => Some(before.value[f.name := v])
        case Refused => before
        case Crash => None
  }

  // The field ends within the response, and reading it stops the program, or gives a value.
  ghost predicate RunsOff(big: bool, f: Field, data: seq<Byte>) {
    f.offset + f.size <= |data| && (f.offset < 0 || f.size < 0 || DecodeField(big, f.fieldType, data[f.offset..f.offset + f.size]).Crash?)
  }

  ghost predicate Gives(big: bool, f: Field, data: seq<Byte>, v: Datum) {
    && 0 <= f.offset && 0 <= f.size && f.offset + f.size <= |data|
    && DecodeField(big, f.fieldType, data[f.offset..f.offset + f.size]) == Got(v)
  }

  // The value of a name is that of the last field of the name that gives one.
  ghost predicate LastGives(big: bool, fields: seq<Field>, data: seq<Byte>, name: string, v: Datum) {
    exists i :: 0 <= i < |fields| && fields[i].name == name && Gives(big, fields[i], data, v)
                && forall j, w :: i < j < |fields| && fields[j].name == name ==> !Gives(big, fields[j], data, w)
  }

  lemma {:induction false} ParsedStops(big: bool, fields: seq<Field>, data: seq<Byte>)
    ensures Parsed(big, fields, data).None? <==> exists i :: 0 <= i < |fields| && RunsOff(big, fields[i], data)
    decreases fields
  {
    if fields != [] {
      var last := |fields| - 1;
      ParsedStops(big, fields[..last], data);
      OneField(big, fields, data);
      hide DecodeField, RunsOff, Gives, Parsed;
      assert forall i :: 0 <= i < last ==> fields[..last][i] == fields[i];
    }
  }

  /** Parsing stops the program exactly when some field that ends within the response cannot be cut out of it or is too short for its type; otherwise each name has the value of the last field of the name that gives one, and no other names have any. */
  lemma {:induction false} ParsedIs(big: bool, fields: seq<Field>, data: seq<Byte>)
    ensures Parsed(big, fields, data).None? <==> exists i :: 0 <= i < |fields| && RunsOff(big, fields[i], data)
    ensures Parsed(big, fields, data).Some? ==>
              forall name, v :: (name in Parsed(big, fields, data).value && Parsed(big, fields, data).value[name] == v)
                                <==> LastGives(big, fields, data, name, v)
    decreases fields
  {
    ParsedStops(big, fields, data);
    if fields != [] && Parsed(big, fields, data).Some? {
      ParsedIs(big, fields[..|fields| - 1], data);
      OneField(big, fields, data);
      hide *;
      forall name, v
        ensures (name in Parsed(big, fields, data).value && Parsed(big, fields, data).value[name] == v) <==> LastGives(big, fields, data, name, v)
      {
        LastOrBefore(big, fields, data, name, v);
        GivesOne(big, fields[|fields| - 1], data, v);
      }
    }
  }

  lemma GivesOne(big: bool, f: Field, data: seq<Byte>, v: Datum)
    ensures Gives(big, f, data, v) ==> forall w :: Gives(big, f, data, w) ==> w == v
  {
    hide DecodeField;
  }

  // What one more field does.
  lemma OneField(big: bool, fields: seq<Field>, data: seq<Byte>)
    requires fields != []
    ensures var last, before := fields[|fields| - 1], Parsed(big, fields[..|fields| - 1], data);
            && (Parsed(big, fields, data).None? <==> before.None? || RunsOff(big, last, data))
            && (Parsed(big, fields, data).Some? ==>
                  && (forall v :: Gives(big, last, data, v) ==> Parsed(big, fields, data).value == before.value[last.name := v])
                  && ((forall v :: !Gives(big, last, data, v)) ==> Parsed(big, fields, data) == before))
  {
    hide DecodeField;
    var f := fields[|fields| - 1];
    if 0 <= f.offset && 0 <= f.size && f.offset + f.size <= |data| {
      var read := DecodeField(big, f.fieldType, data[f.offset..f.offset + f.size]);
      if read.Got? { assert Gives(big, f, data, read.value); }
    }
  }

  lemma LastOrBefore(big: bool, fields: seq<Field>, data: seq<Byte>, name: string, v: Datum)
    requires fields != []
    ensures var last := fields[|fields| - 1];
            LastGives(big, fields, data, name, v) <==>
              || (last.name == name && Gives(big, last, data, v))
              || ((last.name != name || forall w :: !Gives(big, last, data, w)) && LastGives(big, fields[..|fields| - 1], data, name, v))
  {
    hide Gives;
    var last := |fields| - 1;
    assert forall i :: 0 <= i < last ==> fields[..last][i] == fields[i];
  }

  // None stands for a program stopped by a slice or an index out of range.
  ghost predicate IsResponse(fields: Option<seq<Field>>, big: bool, data: seq<Byte>, response: Option<seq<Byte>>) {
    if fields.None? then response == Some(data)
    else
      match Parsed(big, fields.value, data)
      case None => response == None
      case Some(found) =>
        && response.Some?
        && if exists name :: name in found && found[name].Raw?
           then exists name :: name in found && found[name].Raw? && response.value == found[name].raw
           else response.value == data
  }

  // Reads the fields one by one; None stops the program.
  method ReadFields(fields: seq<Field>, big: bool, data: seq<Byte>) returns (found: Option<Params>)
    ensures found == Parsed(big, fields, data)
  {
    hide DecodeField;
    var result: Params := map[];
    for i := 0 to |fields|
      invariant Parsed(big, fields[..i], data) == Some(result)
    {
      var field := fields[i];
      assert fields[..i + 1][..i] == fields[..i];
      if field.offset + field.size <= |data| {
        if field.offset < 0 || field.size < 0 {
          CrashStays(big, fields, data, i + 1);
          return None;
        }
        var value := DecodeField(big, field.fieldType, data[field.offset..field.offset + field.size]);
        if value.Crash? {
          CrashStays(big, fields, data, i + 1);
          return None;
        }
        if value.Got? { result := result[field.name := value.value]; }
      }
    }
    assert fields[..|fields|] == fields;
    return Some(result);
  }

  /** Returns the value of some bytes field, in whatever order the table of values is walked, or else the response as it came. */
  method ParseResponse(definition: Option<seq<Field>>, big: bool, data: seq<Byte>) returns (response: Option<seq<Byte>>)
    ensures IsResponse(definition, big, data, response)
  {
    if definition.None? { return Some(data); }
    hide Parsed;
    var found := ReadFields(definition.value, big, data);
    if found.None? { return None; }
    var result := found.value;
    var names := result.Keys;
    while names != {}
      invariant names <= result.Keys
      invariant forall name :: name in result && name !in names ==> !result[name].Raw?
    {
      var name :| name in names;
      if result[name].Raw? { return Some(result[name].raw); }
      names := names - {name};
    }
    return Some(data);
  }

  lemma {:induction false} CrashStays(big: bool, fields: seq<Field>, data: seq<Byte>, k: nat)
    requires k <= |fields| && Parsed(big, fields[..k], data).None?
    ensures Parsed(big, fields, data).None?
    decreases |fields|
  {
    if k < |fields| {
      assert fields[..|fields| - 1][..k] == fields[..k];
      CrashStays(big, fields[..|fields| - 1], data, k);
    } else {
      assert fields[..k] == fields;
    }
  }

  ghost predicate DistinctNames(fields: seq<Field>) {
    forall i, j :: 0 <= i < j < |fields| ==> fields[i].name != fields[j].name
  }

  lemma {:induction false} ParsedPrefix(big: bool, fields: seq<Field>, params: Params, k: nat)
    requires LaidOut(big, fields, params) && DistinctNames(fields) && k <= |fields| && EncodeAll(big, fields, params).Some?
    ensures var found := Parsed(big, fields[..k], EncodeAll(big, fields, params).value);
            && found.Some?
            && (forall name :: name in found.value <==> exists i :: 0 <= i < k && fields[i].name == name)
            && (forall i :: 0 <= i < k ==> found.value[fields[i].name] == Narrowed(fields[i].fieldType, params[fields[i].name]))
    decreases k
  {
    hide EncodeAll, DecodeField, Narrowed, LaidOut;
    if k > 0 {
      ParsedPrefix(big, fields, params, k - 1);
      assert fields[..k][..k - 1] == fields[..k - 1];
      BlockRoundTrip(big, fields, params, k - 1);
    }
  }

  /** A response that carries a block as its definition lays it out parses to exactly the values of that block. */
  lemma ParsedIsParams(big: bool, fields: seq<Field>, params: Params)
    requires LaidOut(big, fields, params) && DistinctNames(fields) && EncodeAll(big, fields, params).Some?
    ensures var found := Parsed(big, fields, EncodeAll(big, fields, params).value);
            && found.Some?
            && (forall name :: name in found.value <==> exists i :: 0 <= i < |fields| && fields[i].name == name)
            && (forall i :: 0 <= i < |fields| ==> found.value[fields[i].name] == Narrowed(fields[i].fieldType, params[fields[i].name]))
  {
    ParsedPrefix(big, fields, params, |fields|);
    assert fields[..|fields|] == fields;
  }

  /** A block with one field of bytes comes back through the response parser as those bytes. */
  lemma OnlyBytesComeBack(big: bool, fields: seq<Field>, params: Params, k: nat, response: Option<seq<Byte>>)
    requires LaidOut(big, fields, params) && DistinctNames(fields) && EncodeAll(big, fields, params).Some?
    requires k < |fields| && params[fields[k].name].Raw?
    requires forall i :: 0 <= i < |fields| && i != k ==> !params[fields[i].name].Raw?
    requires IsResponse(Some(fields), big, EncodeAll(big, fields, params).value, response)
    ensures response == Some(params[fields[k].name].raw)
  {
    ParsedIsParams(big, fields, params);
    var found := Parsed(big, fields, EncodeAll(big, fields, params).value).value;
    var raw := params[fields[k].name];
    forall i | 0 <= i < |fields| ensures found[fields[i].name].Raw? <==> i == k {
      KeepsKind(fields[i].fieldType, params[fields[i].name]);
    }
    KeepsKind(fields[k].fieldType, raw);
    assert found[fields[k].name] == raw;
    hide EncodeAll, Parsed, LaidOut, Narrowed, DistinctNames;
    assert forall name :: name in found && found[name].Raw? ==> name == fields[k].name;
  }

  // Narrowing makes bytes of nothing but bytes, and leaves those alone.
  lemma KeepsKind(t: string, v: Datum)
    ensures Narrowed(t, v).Raw? <==> v.Raw?
    ensures v.Raw? ==> Narrowed(t, v) == v
  {
  }
}

/** Checksums and command frames of the configurable protocol. */
module CustomFrame {
  import opened Wrappers
  import opened Words
  import opened Crc
  import opened SerialFrame
  import opened CustomCodec

  datatype FrameConfig = FrameConfig(header: string, trailer: string, checksumMethod: string, bigEndian: bool)

  datatype FrameError = BadHeader | BadCommandCode | BadField | BadTrailer

  // The exclusive or of all bytes.
  function XorAll(data: seq<Byte>): Byte {
    if data == [] then 0 else Flip(XorAll(data[..|data| - 1]), data[|data| - 1])
  }

  method CalculateCRC8(data: seq<Byte>) returns (crc: Byte)
    ensures crc == XorAll(data)
  {
    crc := 0;
    for i := 0 to |data|
      invariant crc == XorAll(data[..i])
    {
      assert data[..i + 1][..i] == data[..i];
      crc := crc ^ data[i];
    }
    assert data[..|data|] == data;
  }

  method CalculateXOR(data: seq<Byte>) returns (result: Byte)
    ensures result == XorAll(data)
  {
    result := 0;
    for i := 0 to |data|
      invariant result == XorAll(data[..i])
    {
      assert data[..i + 1][..i] == data[..i];
      result := result ^ data[i];
    }
    assert data[..|data|] == data;
  }

  /** The same register as the serial client's. */
  method CalculateCRC16(data: seq<Byte>) returns (crc: bv16)
    ensures crc == Checksum(data)
  {
    crc := 0xFFFF;
    for j := 0 to |data|
      invariant Register(crc, data[j..]) == Checksum(data)
    {
      assert data[j..][1..] == data[j + 1..];
      crc := ShiftEight(crc ^ (data[j] as bv16));
    }
  }

  // High byte first, unlike the serial client.
  function ChecksumBytes(checksumMethod: string, data: seq<Byte>): seq<Byte> {
    if checksumMethod == "crc16" then [High(Checksum(data)), Low(Checksum(data))]
    else if checksumMethod == "crc8" || checksumMethod == "xor" then [XorAll(data)]
    else []
  }

  function Unhexed(unhex: string -> Option<seq<Byte>>, text: string): Option<seq<Byte>> {
    if text == "" then Some([]) else unhex(text)
  }

  /** Header, command code, parameters, checksum of all these, trailer; hexadecimal texts are read by the library. */
  method BuildCommandFrame(unhex: string -> Option<seq<Byte>>, config: FrameConfig, commandCode: string, fields: seq<Field>, params: Params)
    returns (frame: Result<seq<Byte>, FrameError>)
    ensures frame.Ok? ==>
              && Unhexed(unhex, config.header).Some? && unhex(commandCode).Some?
              && EncodeAll(config.bigEndian, fields, params).Some? && Unhexed(unhex, config.trailer).Some?
              && (config.header == "" ==> Unhexed(unhex, config.header).value == [])
              && (config.trailer == "" ==> Unhexed(unhex, config.trailer).value == [])
              && var body := Unhexed(unhex, config.header).value + unhex(commandCode).value + EncodeAll(config.bigEndian, fields, params).value;
                 frame.value == body + ChecksumBytes(config.checksumMethod, body) + Unhexed(unhex, config.trailer).value
    ensures frame.Err? ==>
              match frame.error
              case BadHeader => config.header != "" && unhex(config.header).None?
              case BadCommandCode => Unhexed(unhex, config.header).Some? && unhex(commandCode).None?
              case BadField => Unhexed(unhex, config.header).Some? && unhex(commandCode).Some? && EncodeAll(config.bigEndian, fields, params).None?
              case BadTrailer =>
                && Unhexed(unhex, config.header).Some? && unhex(commandCode).Some? && EncodeAll(config.bigEndian, fields, params).Some?
                && config.trailer != "" && unhex(config.trailer).None?
  {
    hide Checksum, XorAll, High, Low, EncodeAll;
    var bytes: seq<Byte> := [];
    if config.header != "" {
      var header := unhex(config.header);
      if header.None? { return Err(BadHeader); }
      bytes := bytes + header.value;
    }
    var code := unhex(commandCode);
    if code.None? { return Err(BadCommandCode); }
    bytes := bytes + code.value;
    var data := EncodeParameters(config.bigEndian, fields, params);
    if data.None? { return Err(BadField); }
    bytes := bytes + data.value;
    assert bytes == Unhexed(unhex, config.header).value + code.value + data.value;
    if config.checksumMethod != "none" {
      var checksum := CalculateChecksum(config.checksumMethod, bytes);
      bytes := bytes + checksum;
    }
    if config.trailer != "" {
      var trailer := unhex(config.trailer);
      if trailer.None? { return Err(BadTrailer); }
      bytes := bytes + trailer.value;
    }
    return Ok(bytes);
  }

  method CalculateChecksum(checksumMethod: string, data: seq<Byte>) returns (bytes: seq<Byte>)
    ensures bytes == ChecksumBytes(checksumMethod, data)
  {
    match checksumMethod
    case "crc8" =>
      var crc := CalculateCRC8(data);
      return [crc];
    case "crc16" =>
      var crc := CalculateCRC16(data);
      return [High(crc), Low(crc)];
    case "xor" =>
      var x := CalculateXOR(data);
      return [x];
    case _ =>
      return [];
  }

  /** The checksum has two bytes, one byte, or none, by the name of its method. */
  lemma ChecksumLength(checksumMethod: string, data: seq<Byte>)
    ensures |ChecksumBytes(checksumMethod, data)|
         == if checksumMethod == "crc16" then 2 else if checksumMethod == "crc8" || checksumMethod == "xor" then 1 else 0
  {
  }

  /** A crc16 frame passes the serial client's check exactly when both bytes of its checksum are equal: the two put them in opposite order. */
  lemma SerialAcceptsIff(message: seq<Byte>)
    requires |message| >= 3
    ensures var c := Checksum(message);
            Payload(message + ChecksumBytes("crc16", message)).Some? <==> High(c) == Low(c)
  {
    hide Checksum, High, Low;
    var c := Checksum(message);
    var frame := message + [High(c), Low(c)];
    assert frame[..|frame| - 2] == message;
    ResidueIsZero(frame);
  }

  lemma FlipLawsRaw(a: Byte, b: Byte, c: Byte, d: Byte)
    ensures (a ^ b) ^ (c ^ d) == (a ^ c) ^ (b ^ d) && a ^ a == 0 && (a ^ b == 0 <==> a == b)
  {
  }

  lemma FlipLaws(a: Byte, b: Byte, c: Byte, d: Byte)
    ensures Flip(Flip(a, b), Flip(c, d)) == Flip(Flip(a, c), Flip(b, d))
    ensures Flip(a, a) == 0 && (Flip(a, b) == 0 <==> a == b)
  {
    FlipLawsRaw(a, b, c, d);
  }

  lemma {:induction false} XorCorrupt(data: seq<Byte>, error: seq<Byte>)
    requires |data| == |error|
    ensures XorAll(Corrupt(data, error)) == Flip(XorAll(data), XorAll(error))
    decreases data
  {
    if data == [] {
      FlipLaws(0, 0, 0, 0);
    } else {
      var n := |data| - 1;
      assert Corrupt(data, error)[..n] == Corrupt(data[..n], error[..n]);
      XorCorrupt(data[..n], error[..n]);
      hide Flip;
      FlipLaws(XorAll(data[..n]), XorAll(error[..n]), data[n], error[n]);
    }
  }

  /** What the one-byte checksum misses: an error in the data goes unnoticed exactly when its own bytes cancel out. */
  lemma XorMissesIff(data: seq<Byte>, error: seq<Byte>)
    requires |data| == |error|
    ensures ChecksumBytes("crc8", data) == ChecksumBytes("xor", data)
    ensures ChecksumBytes("xor", Corrupt(data, error)) == ChecksumBytes("xor", data) <==> XorAll(error) == 0
  {
    XorCorrupt(data, error);
    hide Flip, XorAll, Corrupt;
    var x, e := XorAll(data), XorAll(error);
    FlipUnit(x, e);
  }

  lemma FlipUnit(x: Byte, e: Byte)
    ensures Flip(x, e) == x <==> e == 0
  {
    FlipUnitRaw(x, e);
  }

  lemma FlipUnitRaw(x: Byte, e: Byte)
    ensures x ^ e == x <==> e == 0
  {
  }

  lemma {:induction false} XorOfOne(error: seq<Byte>, k: nat)
    requires k < |error| && forall i :: 0 <= i < |error| && i != k ==> error[i] == 0
    ensures XorAll(error) == error[k]
    decreases error
  {
    var n := |error| - 1;
    if k < n {
      XorOfOne(error[..n], k);
    } else {
      XorOfNone(error[..n]);
    }
    FlipZeroRaw(error[k]);
  }

  lemma {:induction false} XorOfNone(error: seq<Byte>)
    requires forall i :: 0 <= i < |error| ==> error[i] == 0
    ensures XorAll(error) == 0
    decreases error
  {
    if error != [] { XorOfNone(error[..|error| - 1]); }
  }

  lemma FlipZeroRaw(a: Byte)
    ensures a ^ 0 == a && 0 ^ a == a
  {
  }

  /** An error confined to one byte of the data always changes the one-byte checksum. */
  lemma XorCatchesOneByte(data: seq<Byte>, error: seq<Byte>, k: nat)
    requires |data| == |error| && k < |error| && error[k] != 0
    requires forall i :: 0 <= i < |error| && i != k ==> error[i] == 0
    ensures ChecksumBytes("xor", Corrupt(data, error)) != ChecksumBytes("xor", data)
  {
    XorMissesIff(data, error);
    XorOfOne(error, k);
  }
}
