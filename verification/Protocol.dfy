// The telegram encoder of main/mkh_protocol.c, a receiver that undoes it, and the
// laws that connect the two.
module Protocol {
  import opened Wrappers
  import opened Bits
  import opened Crc
  import opened Whitening

  const SEED: seq<byte> := [0xC1, 0xC2, 0xC3, 0xC4, 0xC5]
  const HEADER: seq<byte> := [0x71, 0x0f, 0x55]
  const CTX_VALUE_1: byte := 0x3f
  const CTX_VALUE_2: byte := 0x25
  const HEADER_OFFSET: nat := 15
  const FRAME_PHASE: nat := 120   // 8 * HEADER_OFFSET
  const FRAMING := 10   // header, seed and checksum bytes around the data

  // ---- The encoder as a function -------------------------------------------

  // Every byte bit-reversed, in the same byte order.
  function Flipped(bytes: seq<byte>): (s: BitString)
    ensures |s| == 8 * |bytes|
  {
    if bytes == [] then [] else Reverse(ByteBits(bytes[0])) + Flipped(bytes[1..])
  }

  function HeaderBits(): (s: BitString)
    ensures |s| == 24
  {
    Flipped(HEADER)
  }

  function SeedBits(): (s: BitString)
    ensures |s| == 40
  {
    Flipped(Reverse(SEED))
  }

  function Checksum(data: seq<byte>): (s: BitString)
    ensures |s| == 16
  {
    Not(MessageRegister(SEED, data))
  }

  // What the first whitening pass covers.
  function Plain(data: seq<byte>): (s: BitString)
    ensures |s| == 8 * |data| + 56
  {
    SeedBits() + BitsOf(data) + Checksum(data)
  }

  // The buffer from the header on, after the first whitening pass.
  function Frame(data: seq<byte>): (s: BitString)
    ensures |s| == 8 * (|data| + FRAMING)
  {
    HeaderBits() + Whiten(Seeded(CTX_VALUE_1), 0, Plain(data))
  }

  // The second pass runs over the whole buffer, so the frame meets its keystream
  // at bit 15 * 8.
  function Encrypt(data: seq<byte>): (payload: seq<byte>)
    ensures |payload| == |data| + FRAMING
  {
    hide *;
    BytesOf(Whiten(Seeded(CTX_VALUE_2), FRAME_PHASE, Frame(data)))
  }

  // ---- The receiver ----------------------------------------------------------

  // The frame a receiver recovers from a payload.
  function Unwhitened(payload: seq<byte>): (s: BitString)
    ensures |s| == 8 * |payload|
  {
    Whiten(Seeded(CTX_VALUE_2), FRAME_PHASE, BitsOf(payload))
  }

  // Seed, data and checksum bits.
  function Inner(payload: seq<byte>): (s: BitString)
    requires |payload| >= FRAMING
    ensures |s| == 8 * |payload| - 24
  {
    Whiten(Seeded(CTX_VALUE_1), 0, Unwhitened(payload)[24..])
  }

  predicate ResidueHolds(payload: seq<byte>)
    requires |payload| >= FRAMING
  {
    FeedAll(SeedRegister(SEED), Inner(payload)[40..]) == RESIDUE
  }

  function Receive(payload: seq<byte>): Option<seq<byte>> {
    hide HeaderBits, SeedBits, Unwhitened, ResidueHolds, Inner;
    if |payload| < FRAMING then
      None
    else if Unwhitened(payload)[..24] != HeaderBits() || Inner(payload)[..40] != SeedBits() then
      None
    else if !ResidueHolds(payload) then
      None
    else
      Some(BytesOf(Inner(payload)[40..|Inner(payload)| - 16]))
  }

  // ---- Round trip --------------------------------------------------------------

  lemma {:induction false} EncryptedFrame(data: seq<byte>)
    ensures Unwhitened(Encrypt(data)) == Frame(data)
    ensures Inner(Encrypt(data)) == Plain(data)
  {
    hide HeaderBits, SeedBits, MessageRegister, After;
    WhitenTwice(Seeded(CTX_VALUE_2), FRAME_PHASE, Frame(data));
    assert Frame(data)[24..] == Whiten(Seeded(CTX_VALUE_1), 0, Plain(data));
    WhitenTwice(Seeded(CTX_VALUE_1), 0, Plain(data));
  }

  lemma {:induction false} ReceiveInvertsEncrypt(data: seq<byte>)
    ensures Receive(Encrypt(data)) == Some(data)
  {
    hide HeaderBits, SeedBits, MessageRegister, FeedAll, Whiten, Encrypt;
    var payload := Encrypt(data);
    EncryptedFrame(data);
    assert Frame(data)[..24] == HeaderBits();
    assert Plain(data)[..40] == SeedBits();
    assert Plain(data)[40..] == BitsOf(data) + Checksum(data);
    ChecksumLeavesResidue(data, Checksum(data));
    assert Plain(data)[40..|Plain(data)| - 16] == BitsOf(data);
    BytesOfBits(data);
  }

  lemma {:induction false} ChecksumLeavesResidue(data: seq<byte>, checksum: BitString)
    requires |checksum| == 16
    ensures FeedAll(SeedRegister(SEED), BitsOf(data) + checksum) == RESIDUE <==> checksum == Checksum(data)
  {
    hide Feed, FeedAll;
    FeedAllAppend(SeedRegister(SEED), BitsOf(data), checksum);
    ResidueCharacterisesChecksum(MessageRegister(SEED, data), checksum);
  }

  // The receiver accepts nothing but encoder output.
  lemma {:induction false} ReceiveAcceptsOnlyEncodings(payload: seq<byte>, data: seq<byte>)
    requires Receive(payload) == Some(data)
    ensures payload == Encrypt(data)
  {
    hide HeaderBits, SeedBits, Inner, Unwhitened, SeedRegister, FeedAll, Checksum, Plain;
    var inner := Inner(payload);
    var checksum := inner[|inner| - 16..];
    assert inner[40..] == BitsOf(data) + checksum;
    ChecksumLeavesResidue(data, checksum);
    PlainParts(inner, data);
    SameFrame(payload, data);
    SamePayload(payload, data);
  }

  lemma {:induction false} PlainParts(inner: BitString, data: seq<byte>)
    requires |inner| == 8 * |data| + 56
    requires inner[..40] == SeedBits() && inner[40..] == BitsOf(data) + Checksum(data)
    ensures inner == Plain(data)
  {
    hide SeedBits, Checksum, BitsOf;
    assert inner == inner[..40] + inner[40..];
  }

  lemma {:induction false} SameFrame(payload: seq<byte>, data: seq<byte>)
    requires |payload| == |data| + FRAMING
    requires Unwhitened(payload)[..24] == HeaderBits() && Inner(payload) == Plain(data)
    ensures Unwhitened(payload) == Frame(data)
  {
    hide HeaderBits, Plain, Unwhitened, Whiten, Seeded;
    var frame := Unwhitened(payload);
    WhitenTwice(Seeded(CTX_VALUE_1), 0, frame[24..]);
    assert frame == frame[..24] + frame[24..];
  }

  lemma {:induction false} SamePayload(payload: seq<byte>, data: seq<byte>)
    requires Unwhitened(payload) == Frame(data)
    ensures payload == Encrypt(data)
  {
    hide Frame, Whiten, Seeded, BitsOf;
    WhitenTwice(Seeded(CTX_VALUE_2), FRAME_PHASE, BitsOf(payload));
    BytesOfBits(payload);
  }

  lemma {:induction false} EncryptIsInjective(a: seq<byte>, b: seq<byte>)
    requires Encrypt(a) == Encrypt(b)
    ensures a == b
  {
    ReceiveInvertsEncrypt(a);
    ReceiveInvertsEncrypt(b);
  }

  // ---- Burst detection -----------------------------------------------------------

  lemma {:induction false} ErrorReachesFrame(payload: seq<byte>, error: seq<byte>)
    requires |payload| == |error| >= FRAMING
    ensures Unwhitened(XorBytes(payload, error)) == Xor(Unwhitened(payload), BitsOf(error))
    ensures Inner(XorBytes(payload, error)) == Xor(Inner(payload), BitsOf(error)[24..])
  {
    hide After;
    BitsOfXor(payload, error);
    WhitenKeepsErrors(Seeded(CTX_VALUE_2), FRAME_PHASE, BitsOf(payload), BitsOf(error));
    var frame := Unwhitened(payload);
    assert Xor(frame, BitsOf(error))[24..] == Xor(frame[24..], BitsOf(error)[24..]);
    WhitenKeepsErrors(Seeded(CTX_VALUE_1), 0, frame[24..], BitsOf(error)[24..]);
  }

  // An error leaves the residue in place exactly when its bits behind header and seed leave the
  // zero register at zero.
  lemma {:induction false} ErrorKeepsResidueExactly(data: seq<byte>, error: seq<byte>)
    requires |error| == |data| + FRAMING
    ensures ResidueHolds(XorBytes(Encrypt(data), error))
            <==> FeedAll(Zeros(16), BitsOf(error)[64..]) == Zeros(16)
  {
    hide HeaderBits, SeedBits, FeedAll, Feed, Whiten, Encrypt, Plain, Inner;
    var payload := Encrypt(data);
    ErrorReachesFrame(payload, error);
    EncryptedFrame(data);
    var tail := Plain(data)[40..];
    var e := BitsOf(error)[64..];
    assert Inner(XorBytes(payload, error))[40..] == Xor(tail, e);
    PlainTail(data);
    ChecksumLeavesResidue(data, Checksum(data));
    ErrorIsNoticedExactly(SeedRegister(SEED), tail, e);
  }

  // An error burst of up to sixteen bits in the data and checksum of a telegram
  // always breaks the residue.
  lemma {:induction false} BurstBreaksResidue(data: seq<byte>, error: seq<byte>, start: nat)
    requires |error| == |data| + FRAMING
    requires IsBurst(BitsOf(error), start) && start >= 64
    ensures !ResidueHolds(XorBytes(Encrypt(data), error))
  {
    hide FeedAll, Encrypt, ResidueHolds, BitsOf;
    ErrorKeepsResidueExactly(data, error);
    var e := BitsOf(error)[64..];
    assert IsBurst(e, start - 64) by {
      var i :| 0 <= i < |error| * 8 && BitsOf(error)[i];
      assert e[i - 64];
    }
    BurstMovesRegister(e, start - 64);
  }

  lemma {:induction false} PlainTail(data: seq<byte>)
    ensures Plain(data)[40..] == BitsOf(data) + Checksum(data)
  {
    hide SeedBits, Checksum;
  }

  lemma {:induction false} RejectedByHeaderOrSeed(data: seq<byte>, error: seq<byte>, i: nat)
    requires |error| == |data| + FRAMING
    requires i < 64 && BitsOf(error)[i]
    ensures Receive(XorBytes(Encrypt(data), error)) == None
  {
    hide HeaderBits, SeedBits, Checksum, Whiten, Encrypt, Unwhitened, Inner;
    var payload := Encrypt(data);
    ErrorReachesFrame(payload, error);
    EncryptedFrame(data);
    if i < 24 {
      assert Frame(data)[..24] == HeaderBits();
      assert Unwhitened(XorBytes(payload, error))[..24][i] != HeaderBits()[i];
    } else {
      assert Plain(data)[..40] == SeedBits();
      assert Inner(XorBytes(payload, error))[..40][i - 24] != SeedBits()[i - 24];
    }
  }

  predicate FirstClear(bits: BitString, n: nat)
    requires n <= |bits|
  {
    forall i :: 0 <= i < n ==> !bits[i]
  }

  // Which damage the receiver lets through: exactly the errors that spare header and seed and
  // are multiples of the generator behind them.
  lemma {:induction false} ErrorIsAcceptedExactly(data: seq<byte>, error: seq<byte>)
    requires |error| == |data| + FRAMING
    ensures Receive(XorBytes(Encrypt(data), error)) != None
            <==> FirstClear(BitsOf(error), 64) && FeedAll(Zeros(16), BitsOf(error)[64..]) == Zeros(16)
  {
    hide FeedAll, Encrypt, BitsOf, Inner, Unwhitened, HeaderBits, SeedBits, ResidueHolds;
    ErrorKeepsResidueExactly(data, error);
    if FirstClear(BitsOf(error), 64) {
      HeaderAndSeedSurvive(data, error);
    } else {
      var i :| 0 <= i < 64 && BitsOf(error)[i];
      RejectedByHeaderOrSeed(data, error, i);
    }
  }

  lemma {:induction false} HeaderAndSeedSurvive(data: seq<byte>, error: seq<byte>)
    requires |error| == |data| + FRAMING && FirstClear(BitsOf(error), 64)
    ensures Unwhitened(XorBytes(Encrypt(data), error))[..24] == HeaderBits()
    ensures Inner(XorBytes(Encrypt(data), error))[..40] == SeedBits()
  {
    hide HeaderBits, SeedBits, Checksum, Whiten, Encrypt, Unwhitened, Inner, BitsOf;
    var payload := Encrypt(data);
    ErrorReachesFrame(payload, error);
    EncryptedFrame(data);
    assert Frame(data)[..24] == HeaderBits();
    assert Plain(data)[..40] == SeedBits();
  }

  // An error in an odd number of bits, wherever they are, is refused.
  lemma {:induction false} OddErrorIsRejected(data: seq<byte>, error: seq<byte>)
    requires |error| == |data| + FRAMING && Odd(BitsOf(error))
    ensures Receive(XorBytes(Encrypt(data), error)) == None
  {
    hide FeedAll, Encrypt, BitsOf, Receive, Odd;
    ErrorIsAcceptedExactly(data, error);
    var bits := BitsOf(error);
    if FirstClear(bits, 64) {
      assert bits == Zeros(64) + bits[64..];
      OddAppend(Zeros(64), bits[64..]);
      ZerosAreEven(64);
      OddErrorMovesRegister(bits[64..]);
    }
  }

  // Wherever the burst falls, the receiver refuses the damaged payload.
  lemma {:induction false} BurstIsRejected(data: seq<byte>, error: seq<byte>, start: nat)
    requires |error| == |data| + FRAMING
    requires IsBurst(BitsOf(error), start)
    ensures Receive(XorBytes(Encrypt(data), error)) == None
  {
    hide BitsOf, Whiten, Encrypt, Unwhitened, Inner;
    var bits := BitsOf(error);
    if i :| 0 <= i < |bits| && i < 64 && bits[i] {
      RejectedByHeaderOrSeed(data, error, i);
    } else {
      var i :| 0 <= i < |bits| && bits[i];
      assert forall k :: 0 <= k < |bits| && bits[k] ==> start <= k < start + 16 && k >= 64;
      var start' := if start >= 64 then start else 64;
      assert IsBurst(bits, start');
      BurstBreaksResidue(data, error, start');
    }
  }

  // ---- On the air --------------------------------------------------------------

  const DATA_TYPE_FLAGS: byte := 0x01
  const DATA_TYPE_MANUFACTURER: byte := 0xFF
  const COMPANY_ID_LO: byte := 0xF0
  const COMPANY_ID_HI: byte := 0xFF

  // (uint8_t)(1 + 2 + payload_len)
  function LengthByte(length: nat): byte
    requires length <= 252
  {
    (3 + length) as byte
  }

  // The advertising data: a flags element and a manufacturer element around the
  // payload.
  function AdvertisingData(payload: seq<byte>): (s: seq<byte>)
    requires |payload| <= 252
    ensures |s| == 7 + |payload|
  {
    [0x02, DATA_TYPE_FLAGS, 0x06, LengthByte(|payload|), DATA_TYPE_MANUFACTURER, COMPANY_ID_LO, COMPANY_ID_HI]
    + payload
  }

  // The two buffers that are ever built, byte for byte around their payload.
  lemma {:induction false} AdvertisingDataIs(payload: seq<byte>)
    ensures |payload| == 18 ==> AdvertisingData(payload) == [0x02, 0x01, 0x06, 0x15, 0xFF, 0xF0, 0xFF] + payload
    ensures |payload| == 20 ==> AdvertisingData(payload) == [0x02, 0x01, 0x06, 0x17, 0xFF, 0xF0, 0xFF] + payload
  {
    LengthBytes();
    hide LengthByte;
  }

  lemma {:induction false} LengthBytes()
    ensures LengthByte(18) == 0x15 && LengthByte(20) == 0x17
  {
  }

  // The link layer whitens header, advertiser address and advertising data of a
  // channel-37 PDU from its first bit.
  function OnAirChannel37(pdu: seq<byte>): (s: BitString)
    ensures |s| == 8 * |pdu|
  {
    Whiten(Seeded(37), 0, BitsOf(pdu))
  }

  // On channel 37 the second pass and the link layer cancel: from byte 15 of the
  // PDU on, the air carries the frame as it was after the first pass.
  lemma {:induction false} Channel37CancelsSecondPass(prefix: seq<byte>, data: seq<byte>)
    requires |prefix| == 8 && |data| <= 242
    ensures OnAirChannel37(prefix + AdvertisingData(Encrypt(data)))[FRAME_PHASE..] == Frame(data)
  {
    hide Frame, Encrypt, After, Seeded;
    var payload := Encrypt(data);
    var lead := prefix + AdvertisingData(payload)[..7];
    assert prefix + AdvertisingData(payload) == lead + payload;
    BitsOfAppend(lead, payload);
    WhitenAppend(Seeded(37), 0, BitsOf(lead), BitsOf(payload));
    EncryptedFrame(data);
    assert CTX_VALUE_2 == 37;
  }

  // ---- Telegrams -----------------------------------------------------------------

  const NUM_DEVICES: nat := 3
  const NUM_CHANNELS: nat := 6
  const NEUTRAL: byte := 0x80

  const CONNECT_TELEGRAM: seq<byte> := [0x6D, 0x7B, 0xA7, 0x80, 0x80, 0x80, 0x80, 0x92]

  function Address(device: nat): byte
    requires device < NUM_DEVICES
  {
    if device == 0 then 0x61 else if device == 1 then 0x62 else 0x63
  }

  function Trailer(device: nat): byte
    requires device < NUM_DEVICES
  {
    if device == 0 then 0x9E else if device == 1 then 0x9D else 0x9C
  }

  // A CONTROL telegram: address, two fixed bytes, six channels, trailer.
  function ControlTelegram(device: nat, values: seq<byte>): (t: seq<byte>)
    requires device < NUM_DEVICES && |values| == NUM_CHANNELS
    ensures |t| == 10
  {
    [Address(device), 0x7B, 0xA7] + values + [Trailer(device)]
  }

  // What a hub reads from a telegram: the addressed slot and the six channels.
  function ReadTelegram(t: seq<byte>): Option<(nat, seq<byte>)> {
    if |t| != 10 || t[1] != 0x7B || t[2] != 0xA7 then None
    else if t[0] == 0x61 && t[9] == 0x9E then Some((0, t[3..9]))
    else if t[0] == 0x62 && t[9] == 0x9D then Some((1, t[3..9]))
    else if t[0] == 0x63 && t[9] == 0x9C then Some((2, t[3..9]))
    else None
  }

  // What a hub hears in a payload.
  function Heard(payload: seq<byte>): Option<(nat, seq<byte>)> {
    match Receive(payload)
    case None => None
    case Some(t) => ReadTelegram(t)
  }

  function ControlPayload(device: nat, values: seq<byte>): (payload: seq<byte>)
    requires device < NUM_DEVICES && |values| == NUM_CHANNELS
    ensures |payload| == 20
  {
    Encrypt(ControlTelegram(device, values))
  }

  function ConnectPayload(): (payload: seq<byte>)
    ensures |payload| == 18
  {
    hide Encrypt;
    Encrypt(CONNECT_TELEGRAM)
  }

  // The three telegrams, byte for byte around the six channels.
  lemma {:induction false} ControlTelegramIs(values: seq<byte>)
    requires |values| == 6
    ensures ControlTelegram(0, values) == [0x61, 0x7B, 0xA7] + values + [0x9E]
    ensures ControlTelegram(1, values) == [0x62, 0x7B, 0xA7] + values + [0x9D]
    ensures ControlTelegram(2, values) == [0x63, 0x7B, 0xA7] + values + [0x9C]
    ensures forall d :: 0 <= d < 3 ==> Receive(ControlPayload(d, values)) == Some(ControlTelegram(d, values))
  {
    hide Receive, Encrypt;
    forall d | 0 <= d < 3
      ensures Receive(ControlPayload(d, values)) == Some(ControlTelegram(d, values))
    {
      ReceiveInvertsEncrypt(ControlTelegram(d, values));
    }
  }

  // A control payload is heard by exactly its hub with exactly its channels.
  lemma {:induction false} ControlPayloadIsHeard(device: nat, values: seq<byte>)
    requires device < NUM_DEVICES && |values| == NUM_CHANNELS
    ensures Heard(ControlPayload(device, values)) == Some((device, values))
  {
    hide Encrypt, Receive;
    var t := ControlTelegram(device, values);
    ReceiveInvertsEncrypt(t);
    assert t[3..9] == values;
    assert t[0] == Address(device) && t[9] == Trailer(device);
  }

  lemma {:induction false} ConnectPayloadSays()
    ensures Receive(ConnectPayload()) == Some([0x6D, 0x7B, 0xA7, 0x80, 0x80, 0x80, 0x80, 0x92])
  {
    hide Encrypt, Receive;
    ReceiveInvertsEncrypt(CONNECT_TELEGRAM);
  }

  lemma {:induction false} ConnectPayloadIsNotControl()
    ensures Heard(ConnectPayload()) == None
  {
    hide Encrypt, Receive;
    ReceiveInvertsEncrypt(CONNECT_TELEGRAM);
  }

  // ---- Channel power ---------------------------------------------------------------

  function Clamp(power: real): real {
    if power > 1.0 then 1.0 else if power < -1.0 then -1.0 else power
  }

  // The byte mkh_protocol_set_channel writes, as an integer. The C casts truncate.
  function PowerLevel(power: real): (v: int)
    ensures 0 <= v <= 255
  {
    var p := Clamp(power);
    if p > 0.0 then
      var v := 0x80 + (p * 128.0).Floor;
      if v > 0xFF then 0xFF else v
    else if p < 0.0 then
      0x80 - (-p * 128.0).Floor
    else
      0x80
  }

  // Raw byte to power, the unit the encoder expects.
  function PowerOf(value: byte): real {
    (value as int as real - 128.0) / 128.0
  }

  lemma {:induction false} PowerLevelOfByte(value: byte)
    ensures PowerLevel(PowerOf(value)) == value as int
  {
    var v := value as int;
    assert PowerOf(value) * 128.0 == v as real - 128.0;
    assert (v as real - 128.0).Floor == v - 128;
    assert (128.0 - v as real).Floor == 128 - v;
    assert -PowerOf(value) * 128.0 == 128.0 - v as real;
  }

  // Over all real powers: the level never decreases, saturates outside [-1, 1] and
  // is neutral exactly within one 128th of zero.
  lemma {:induction false} PowerLevelLaws(p: real, q: real)
    ensures p <= q ==> PowerLevel(p) <= PowerLevel(q)
    ensures p >= 1.0 ==> PowerLevel(p) == 0xFF
    ensures p <= -1.0 ==> PowerLevel(p) == 0x00
    ensures PowerLevel(p) == 0x80 <==> -1.0 < p * 128.0 < 1.0
  {
    if p <= q {
      FloorIsMonotone(p * 128.0, q * 128.0);
      FloorIsMonotone(-q * 128.0, -p * 128.0);
      FloorIsMonotone(Clamp(p) * 128.0, Clamp(q) * 128.0);
      FloorIsMonotone(-Clamp(q) * 128.0, -Clamp(p) * 128.0);
    }
  }

  lemma {:induction false} FloorIsMonotone(x: real, y: real)
    requires x <= y
    ensures x.Floor <= y.Floor
  {
  }
}
