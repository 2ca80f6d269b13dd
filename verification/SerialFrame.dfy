/**
 RTU frames of the serial client: building requests, checking responses, and what the
 check is worth on a noisy line (MODBUS over Serial Line V1.02, section 2.5.1.2, and
 MODBUS Application Protocol V1.1b3, section 6.3).
 */
module SerialFrame {
  import opened Wrappers
  import opened Bytes
  import opened Words
  import opened Crc
  import opened CrcOrder

  // ---------------------------------------------------------------- building and checking

  // A message followed by its checksum, low byte first.
  function Framed(message: seq<Byte>): seq<Byte> {
    message + [Low(Checksum(message)), High(Checksum(message))]
  }

  // What a response carries: everything between the two header bytes and the checksum,
  // provided the whole frame leaves the register at zero.
  function Payload(response: seq<Byte>): Option<seq<Byte>> {
    if |response| < 5 || Checksum(response) != 0 then None else Some(response[2..|response| - 2])
  }

  lemma {:induction false} RegisterAppend(c: bv16, a: seq<Byte>, b: seq<Byte>)
    ensures Register(c, a + b) == Register(Register(c, a), b)
    decreases a
  {
    hide Absorb;
    if a == [] {
      assert a + b == b;
    } else {
      assert (a + b)[1..] == a[1..] + b;
      RegisterAppend(Absorb(c, a[0]), a[1..], b);
    }
  }

  lemma RegisterTwo(c: bv16, lo: Byte, hi: Byte)
    ensures Register(c, [lo, hi]) == Absorb(Absorb(c, lo), hi)
  {
    hide Absorb;
    assert [lo, hi][1..] == [hi];
    assert Register(c, [lo, hi]) == Register(Absorb(c, lo), [hi]) == Register(Absorb(Absorb(c, lo), hi), [hi][1..]);
  }

  /** The residue: comparing the last two bytes with the checksum of the rest is the same as asking the whole frame for a zero register. */
  lemma ResidueIsZero(frame: seq<Byte>)
    requires |frame| >= 2
    ensures var n := |frame| - 2;
            (frame[n] == Low(Checksum(frame[..n])) && frame[n + 1] == High(Checksum(frame[..n]))) <==> Checksum(frame) == 0
  {
    hide Absorb, Register, Low, High;
    var n := |frame| - 2;
    assert frame == frame[..n] + [frame[n], frame[n + 1]];
    RegisterAppend(INITIAL, frame[..n], [frame[n], frame[n + 1]]);
    RegisterTwo(Checksum(frame[..n]), frame[n], frame[n + 1]);
    TwoBytesCancel(Checksum(frame[..n]), frame[n], frame[n + 1]);
  }

  lemma FramedIsValid(message: seq<Byte>)
    ensures Checksum(Framed(message)) == 0
  {
    hide Checksum, Low, High;
    var frame := Framed(message);
    assert frame[..|frame| - 2] == message;
    ResidueIsZero(frame);
  }

  /** A frame made of a message and its checksum is accepted, and gives back what follows the two header bytes. */
  lemma FramedRoundTrip(message: seq<Byte>)
    requires |message| >= 3
    ensures Payload(Framed(message)) == Some(message[2..])
  {
    hide Checksum;
    FramedIsValid(message);
    assert Framed(message)[2..|message|] == message[2..];
  }

  /** Checks a response and strips its envelope; None stands for nil. */
  method ProcessReadResponse(response: seq<Byte>) returns (data: Option<seq<Byte>>)
    ensures data == Payload(response)
  {
    hide Checksum;
    if |response| < 5 {
      return None;
    }
    var crc := CalculateCRC(response[..|response| - 2]);
    ResidueIsZero(response);
    if (crc & 0xFF) as Byte != response[|response| - 2] || (crc >> 8) as Byte != response[|response| - 1] {
      return None;
    }
    return Some(response[2..|response| - 2]);
  }

  // A 16-bit field, high byte first.
  function Field16(frame: seq<Byte>, at: nat): int
    requires at + 1 < |frame|
  {
    256 * Value(frame[at]) + Value(frame[at + 1])
  }

  lemma SplitField(n: int)
    ensures 256 * (n / 256 % 256) + n % 256 == n % 65536
  {
    var q, r := n / 65536, n % 65536;
    assert n == 256 * (256 * q + r / 256) + r % 256;
    assert n / 256 == 256 * q + r / 256;
  }

  lemma Field16Value(n: int)
    ensures 256 * Value(ToByte(n / 256)) + Value(ToByte(n)) == n % 65536
  {
    hide ToByte;
    SplitField(n);
  }

  /** A request to read holding registers; the address is what strconv.Atoi made of its text, None on an error. */
  method BuildReadCommand(address: Option<int>, length: int) returns (command: Option<seq<Byte>>)
    ensures command.None? <==> address.None?
    ensures command.Some? ==>
              var c := command.value;
              && |c| == 8 && Checksum(c) == 0
              && c[0] == 1 && c[1] == 3
              && Field16(c, 2) == address.value % 65536
              && Field16(c, 4) == length % 65536
  {
    hide Checksum, Low, High, ToByte, Value;
    if address.None? {
      return None;
    }
    var addr := address.value;
    var message := [1, 3, ToByte(addr / 256), ToByte(addr), ToByte(length / 256), ToByte(length)];
    var crc := CalculateCRC(message);
    var frame := message + [(crc & 0xFF) as Byte, (crc >> 8) as Byte];
    HalvesAre(crc);
    assert frame == Framed(message);
    FramedIsValid(message);
    Field16Value(addr);
    Field16Value(length);
    return Some(frame);
  }

  /** A request to write registers. */
  method BuildWriteCommand(address: Option<int>, data: seq<Byte>) returns (command: Option<seq<Byte>>)
    ensures command.None? <==> address.None?
    ensures command.Some? ==>
              var c := command.value;
              && |c| == |data| + 9 && Checksum(c) == 0
              && c[0] == 1 && c[1] == 0x10
              && Field16(c, 2) == address.value % 65536
              && Field16(c, 4) == WriteQuantity(|data|)
              && Value(c[6]) == |data| % 256
              && c[7..|data| + 7] == data
  {
    hide Checksum, Low, High, ToByte, Value;
    if address.None? {
      return None;
    }
    var addr := address.value;
    var message := [1, 0x10, ToByte(addr / 256), ToByte(addr), ToByte(|data| / 2), ToByte(|data| % 2), ToByte(|data|)];
    message := message + data;
    var crc := CalculateCRC(message);
    var frame := message + [(crc & 0xFF) as Byte, (crc >> 8) as Byte];
    HalvesAre(crc);
    assert frame == Framed(message);
    FramedIsValid(message);
    Field16Value(addr);
    assert frame[7..|data| + 7] == data;
    return Some(frame);
  }

  // The register count a write request carries: len>>1 and len&1 in place of the two halves of one number.
  function WriteQuantity(length: nat): int {
    256 * (length / 2 % 256) + length % 2
  }

  /** Section 6.12 wants the number of registers, half the byte count: for an even count the field holds it exactly when there is nothing to write. */
  lemma WriteQuantityIsRegisters(length: nat)
    ensures WriteQuantity(length) == length / 2 <==> length == 0 || length == 515
    ensures length % 2 == 0 ==> (WriteQuantity(length) == length / 2 <==> length == 0)
  {
    var k := length / 2;
    assert k == 256 * (k / 256) + k % 256;
  }

  // ---------------------------------------------------------------- where the register starts

  function Inverted(b: Byte): Byte { b ^ 0xFF }

  lemma InvertedStart(a: Byte)
    ensures Sum(0xFFFF, Wide(a)) == Sum(Sum(0, Wide(Inverted(a))), Wide(0xFF) << 8)
  {
  }

  lemma InvertedSecond(x: bv16, b: Byte)
    ensures Sum(Sum(x, Wide(0xFF)), Wide(b)) == Sum(x, Wide(Inverted(b)))
  {
    hide Sum, Wide, Inverted;
    SumAssoc(x, Wide(0xFF), Wide(b));
    WideInverted(b);
  }

  lemma WideInverted(b: Byte)
    ensures Sum(Wide(0xFF), Wide(b)) == Wide(Inverted(b))
  {
  }

  lemma AbsorbInverted(a: Byte, b: Byte)
    ensures Absorb(Absorb(0xFFFF, a), b) == Absorb(Absorb(0, Inverted(a)), Inverted(b))
  {
    var x := Shifts(Sum(0, Wide(Inverted(a))), 8);
    hide Shifts, Sum, Wide, Inverted;
    InvertedStart(a);
    DoubledEight(Wide(0xFF));
    DoubledByte(0xFF);
    ShiftsAdd(Sum(0, Wide(Inverted(a))), Wide(0xFF), 8);
    InvertedSecond(x, b);
  }

  /** The register starts at all ones: the checksum is that of the message with its first sixteen bits inverted, computed from zero. */
  lemma ChecksumInverts(message: seq<Byte>)
    requires |message| >= 2
    ensures Checksum(message) == Register(0, [message[0] ^ 0xFF, message[1] ^ 0xFF] + message[2..])
  {
    var first, second, rest := message[0], message[1], message[2..];
    hide Absorb, Register;
    assert message == [first, second] + rest;
    RegisterAppend(0xFFFF, [first, second], rest);
    RegisterAppend(0, [Inverted(first), Inverted(second)], rest);
    RegisterTwo(0xFFFF, first, second);
    RegisterTwo(0, Inverted(first), Inverted(second));
    AbsorbInverted(first, second);
  }

  // Eight shifts, one after the other.
  lemma EightShifts(c: bv16, c1: bv16, c2: bv16, c3: bv16, c4: bv16, c5: bv16, c6: bv16, c7: bv16, c8: bv16)
    requires Shift(c) == c1 && Shift(c1) == c2 && Shift(c2) == c3 && Shift(c3) == c4
    requires Shift(c4) == c5 && Shift(c5) == c6 && Shift(c6) == c7 && Shift(c7) == c8
    ensures Shifts(c, 8) == c8
  {
    hide Shift;
    assert Shifts(c, 8) == Shifts(c2, 6);
    assert Shifts(c2, 6) == Shifts(c4, 4);
    assert Shifts(c4, 4) == Shifts(c6, 2);
  }

  lemma Absorbs807E()
    ensures Absorb(0xFFFF, 0x1) == 0x807E
  {
    EightShifts(0xFFFE, 0x7FFF, 0x9FFE, 0x4FFF, 0x87FE, 0x43FF, 0x81FE, 0x40FF, 0x807E);
  }

  lemma Absorbs2140()
    ensures Absorb(0x807E, 0x3) == 0x2140
  {
    EightShifts(0x807D, 0xE03F, 0xD01E, 0x680F, 0x9406, 0x4A03, 0x8500, 0x4280, 0x2140);
  }

  lemma AbsorbsF020()
    ensures Absorb(0x2140, 0x0) == 0xF020
  {
    EightShifts(0x2140, 0x10A0, 0x850, 0x428, 0x214, 0x10A, 0x85, 0xA043, 0xF020);
  }

  lemma AbsorbsD8F1()
    ensures Absorb(0xF020, 0x0) == 0xD8F1
  {
    EightShifts(0xF020, 0x7810, 0x3C08, 0x1E04, 0xF02, 0x781, 0xA3C1, 0xF1E1, 0xD8F1);
  }

  lemma Absorbs8419()
    ensures Absorb(0xD8F1, 0x0) == 0x8419
  {
    EightShifts(0xD8F1, 0xCC79, 0xC63D, 0xC31F, 0xC18E, 0x60C7, 0x9062, 0x4831, 0x8419);
  }

  lemma Absorbs0A84()
    ensures Absorb(0x8419, 0x1) == 0xA84
  {
    EightShifts(0x8418, 0x420C, 0x2106, 0x1083, 0xA840, 0x5420, 0x2A10, 0x1508, 0xA84);
  }

  lemma Absorbs31A1()
    ensures Absorb(0x2140, 0x2) == 0x31A1
  {
    EightShifts(0x2142, 0x10A1, 0xA851, 0xF429, 0xDA15, 0xCD0B, 0xC684, 0x6342, 0x31A1);
  }

  lemma AbsorbsB8F0()
    ensures Absorb(0x31A1, 0x0) == 0xB8F0
  {
    EightShifts(0x31A1, 0xB8D1, 0xFC69, 0xDE35, 0xCF1B, 0xC78C, 0x63C6, 0x31E3, 0xB8F0);
  }

  lemma Absorbs8479()
    ensures Absorb(0xB8F0, 0x1) == 0x8479
  {
    EightShifts(0xB8F1, 0xFC79, 0xDE3D, 0xCF1F, 0xC78E, 0x63C7, 0x91E2, 0x48F1, 0x8479);
  }

  lemma RequestChecksum()
    ensures Checksum([1, 3, 0, 0, 0, 1]) == 0xA84
  {
    Absorbs807E();
    Absorbs2140();
    AbsorbsF020();
    AbsorbsD8F1();
    Absorbs8419();
    Absorbs0A84();
    hide Absorb;
    assert [1, 3, 0, 0, 0, 1][1..] == [3, 0, 0, 0, 1] && Register(0xFFFF, [1, 3, 0, 0, 0, 1]) == Register(0x807E, [3, 0, 0, 0, 1]);
    assert [3, 0, 0, 0, 1][1..] == [0, 0, 0, 1] && Register(0x807E, [3, 0, 0, 0, 1]) == Register(0x2140, [0, 0, 0, 1]);
    assert [0, 0, 0, 1][1..] == [0, 0, 1] && Register(0x2140, [0, 0, 0, 1]) == Register(0xF020, [0, 0, 1]);
    assert [0, 0, 1][1..] == [0, 1] && Register(0xF020, [0, 0, 1]) == Register(0xD8F1, [0, 1]);
    assert [0, 1][1..] == [1] && Register(0xD8F1, [0, 1]) == Register(0x8419, [1]);
    assert [1][1..] == [] && Register(0x8419, [1]) == Register(0xA84, []);
  }

  lemma ResponseChecksum()
    ensures Checksum([1, 3, 2, 0, 1]) == 0x8479
  {
    Absorbs807E();
    Absorbs2140();
    Absorbs31A1();
    AbsorbsB8F0();
    Absorbs8479();
    hide Absorb;
    assert [1, 3, 2, 0, 1][1..] == [3, 2, 0, 1] && Register(0xFFFF, [1, 3, 2, 0, 1]) == Register(0x807E, [3, 2, 0, 1]);
    assert [3, 2, 0, 1][1..] == [2, 0, 1] && Register(0x807E, [3, 2, 0, 1]) == Register(0x2140, [2, 0, 1]);
    assert [2, 0, 1][1..] == [0, 1] && Register(0x2140, [2, 0, 1]) == Register(0x31A1, [0, 1]);
    assert [0, 1][1..] == [1] && Register(0x31A1, [0, 1]) == Register(0xB8F0, [1]);
    assert [1][1..] == [] && Register(0xB8F0, [1]) == Register(0x8479, []);
  }

  /** The request to read one register at address 0 ends in 84 0A, and the response 00 01 to it in 79 84: the client drops its header and its checksum and hands on the rest. */
  lemma KnownFrames()
    ensures Framed([1, 3, 0, 0, 0, 1]) == [1, 3, 0, 0, 0, 1, 0x84, 0x0A]
    ensures Payload([1, 3, 2, 0, 1, 0x79, 0x84]) == Some([2, 0, 1])
  {
    RequestChecksum();
    ResponseChecksum();
    assert Low(0xA84) == 0x84 && High(0xA84) == 0x0A && Low(0x8479) == 0x79 && High(0x8479) == 0x84;
    hide Checksum, Low, High, Payload;
    FramedRoundTrip([1, 3, 2, 0, 1]);
    assert Framed([1, 3, 2, 0, 1]) == [1, 3, 2, 0, 1, 0x79, 0x84];
    assert [1, 3, 2, 0, 1][2..] == [2, 0, 1];
  }

  // ---------------------------------------------------------------- errors on the line

  function Flip(a: Byte, b: Byte): Byte { a ^ b }

  // A frame with the error pattern added, bit by bit.
  function Corrupt(frame: seq<Byte>, error: seq<Byte>): (r: seq<Byte>)
    requires |frame| == |error|
    ensures |r| == |frame|
  {
    seq(|frame|, i requires 0 <= i < |frame| => Flip(frame[i], error[i]))
  }

  lemma FlipBits(a: Byte, b: Byte)
    ensures Lsb(Flip(a, b)) == (Lsb(a) != Lsb(b)) && Rest(Flip(a, b)) == Flip(Rest(a), Rest(b))
  {
    FlipBitsRaw(a, b);
  }

  lemma FlipBitsRaw(a: Byte, b: Byte)
    ensures ((a ^ b) & 1 != 0) == ((a & 1 != 0) != (b & 1 != 0)) && (a ^ b) >> 1 == (a >> 1) ^ (b >> 1)
  {
  }

  lemma {:induction false} LowBitsFlip(a: Byte, b: Byte, n: nat)
    ensures LowBits(Flip(a, b), n) == AddBits(LowBits(a, n), LowBits(b, n))
    decreases n
  {
    hide Flip, Lsb, Rest;
    if n > 0 {
      FlipBits(a, b);
      LowBitsFlip(Rest(a), Rest(b), n - 1);
    }
  }

  lemma {:induction false} BitsCorrupt(frame: seq<Byte>, error: seq<Byte>)
    requires |frame| == |error|
    ensures Bits(Corrupt(frame, error)) == AddBits(Bits(frame), Bits(error))
    decreases frame
  {
    hide Flip, LowBits;
    if frame != [] {
      LowBitsFlip(frame[0], error[0], 8);
      assert Corrupt(frame, error)[1..] == Corrupt(frame[1..], error[1..]);
      BitsCorrupt(frame[1..], error[1..]);
    }
  }

  // The register the error alone would leave, started from zero.
  function Syndrome(error: seq<Byte>): bv16 {
    Feed(0, Bits(error))
  }

  /** A corrupted frame is accepted exactly when the error alone leaves the register at zero: what it was added to does not matter. */
  lemma AcceptedIffSyndromeZero(frame: seq<Byte>, error: seq<Byte>)
    requires Payload(frame).Some? && |error| == |frame|
    ensures Payload(Corrupt(frame, error)).Some? <==> Syndrome(error) == 0
  {
    hide Register, Feed, Bits, Sum;
    RegisterIsFeed(INITIAL, frame);
    RegisterIsFeed(INITIAL, Corrupt(frame, error));
    BitsCorrupt(frame, error);
    FeedLinear(INITIAL, 0, Bits(frame), Bits(error));
    SumZero(INITIAL);
    SumZero(Syndrome(error));
  }

  /** Every burst of at most 16 consecutive wrong bits, checksum bytes included, makes the client drop the frame. */
  lemma BurstIsDetected(frame: seq<Byte>, error: seq<Byte>, k: nat)
    requires Payload(frame).Some? && |error| == |frame|
    requires exists i :: 0 <= i < 8 * |error| && Bits(error)[i]
    requires forall i :: 0 <= i < 8 * |error| && Bits(error)[i] ==> k <= i < k + 16
    ensures Payload(Corrupt(frame, error)).None?
  {
    hide Feed, Bits, Checksum, Corrupt;
    AcceptedIffSyndromeZero(frame, error);
    if Syndrome(error) == 0 {
      var e := Bits(error);
      BurstNeverCancels(e, if k + 16 <= |e| then k else |e| - 16);
    }
  }

  /** Every error that flips an odd number of bits makes the client drop the frame. */
  lemma OddErrorIsDetected(frame: seq<Byte>, error: seq<Byte>)
    requires Payload(frame).Some? && |error| == |frame|
    requires OddWeight(Bits(error))
    ensures Payload(Corrupt(frame, error)).None?
  {
    hide Feed, Bits, Checksum, Corrupt, OddWeight;
    AcceptedIffSyndromeZero(frame, error);
    OddErrorNeverCancels(Bits(error));
  }

  // The error flips just these two bits of the frame.
  ghost predicate FlipsJust(error: seq<Byte>, i: nat, j: nat) {
    i < j < 8 * |error| && forall k :: 0 <= k < 8 * |error| ==> (Bits(error)[k] <==> k == i || k == j)
  }

  /** Two wrong bits go unnoticed exactly when they are a multiple of 32767 bits apart, so never in a frame of less than 4096 bytes. */
  lemma TwoBitErrorMissedIff(frame: seq<Byte>, error: seq<Byte>, i: nat, j: nat)
    requires Payload(frame).Some? && |error| == |frame| && FlipsJust(error, i, j)
    ensures Payload(Corrupt(frame, error)).Some? <==> (j - i) % ORDER == 0
    ensures |frame| < 4096 ==> Payload(Corrupt(frame, error)).None?
  {
    hide Feed, Bits, Checksum, Corrupt;
    AcceptedIffSyndromeZero(frame, error);
    TwoBitsCancelIff(Bits(error), i, j);
  }

  /** An accepted frame has an even number of bits set. */
  lemma AcceptedIsEven(frame: seq<Byte>)
    requires Payload(frame).Some?
    ensures !OddWeight(Bits(frame))
  {
    hide Feed, Bits, Register, OddWeight, OddBits;
    RegisterIsFeed(INITIAL, frame);
    FeedParity(INITIAL, Bits(frame));
    OddBitsZero(16);
    InitialIsEven();
  }

  lemma InitialIsEven()
    ensures !OddBits(INITIAL, 16)
  {
    assert IsOdd(0xFFFF) && Half(0xFFFF) == 0x7FFF && IsOdd(0x7FFF) && Half(0x7FFF) == 0x3FFF;
    assert IsOdd(0x3FFF) && Half(0x3FFF) == 0x1FFF && IsOdd(0x1FFF) && Half(0x1FFF) == 0xFFF;
    assert IsOdd(0xFFF) && Half(0xFFF) == 0x7FF && IsOdd(0x7FF) && Half(0x7FF) == 0x3FF;
    assert IsOdd(0x3FF) && Half(0x3FF) == 0x1FF && IsOdd(0x1FF) && Half(0x1FF) == 0xFF;
    assert IsOdd(0xFF) && Half(0xFF) == 0x7F && IsOdd(0x7F) && Half(0x7F) == 0x3F;
    assert IsOdd(0x3F) && Half(0x3F) == 0x1F && IsOdd(0x1F) && Half(0x1F) == 0xF;
    assert IsOdd(0xF) && Half(0xF) == 7 && IsOdd(7) && Half(7) == 3 && IsOdd(3) && Half(3) == 1;
    assert IsOdd(1) && Half(1) == 0;
    assert !OddBits(3, 2);
    assert !OddBits(0xF, 4);
    assert !OddBits(0x3F, 6);
    assert !OddBits(0xFF, 8);
    assert !OddBits(0x3FF, 10);
    assert !OddBits(0xFFF, 12);
    assert !OddBits(0x3FFF, 14);
  }
}
