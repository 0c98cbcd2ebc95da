// The in-place encoder of main/mkh_protocol.c, proved against Protocol.Encrypt.
module Encoder {
  import opened Bits
  import opened Crc
  import opened Whitening
  import opened Protocol

  const BUFFER_SIZE := 64

  function LowByte(w: word): byte {
    (w & 0xFF) as byte
  }

  function HighByte(w: word): byte {
    ((w >> 8) & 0xFF) as byte
  }

  lemma {:induction false} LowTests(w: word)
    ensures var b := LowByte(w);
            TestByte(b, 1) == TestWord(w, 1) && TestByte(b, 2) == TestWord(w, 2)
            && TestByte(b, 4) == TestWord(w, 4) && TestByte(b, 8) == TestWord(w, 8)
            && TestByte(b, 16) == TestWord(w, 0x10) && TestByte(b, 32) == TestWord(w, 0x20)
            && TestByte(b, 64) == TestWord(w, 0x40) && TestByte(b, 128) == TestWord(w, 0x80)
  {
  }

  lemma {:induction false} HighTests(w: word)
    ensures var b := HighByte(w);
            TestByte(b, 1) == TestWord(w, 0x100) && TestByte(b, 2) == TestWord(w, 0x200)
            && TestByte(b, 4) == TestWord(w, 0x400) && TestByte(b, 8) == TestWord(w, 0x800)
            && TestByte(b, 16) == TestWord(w, 0x1000) && TestByte(b, 32) == TestWord(w, 0x2000)
            && TestByte(b, 64) == TestWord(w, 0x4000) && TestByte(b, 128) == TestWord(w, 0x8000)
  {
  }

  lemma {:induction false} LowBits(w: word, k: nat)
    requires k < 8
    ensures ByteBit(LowByte(w), k) == WordBit(w, 15 - k)
  {
    LowTests(w);
    hide TestByte, TestWord, LowByte;
    if k == 0 {} else if k == 1 {} else if k == 2 {} else if k == 3 {}
    else if k == 4 {} else if k == 5 {} else if k == 6 {} else { assert k == 7; }
  }

  lemma {:induction false} HighBits(w: word, k: nat)
    requires k < 8
    ensures ByteBit(HighByte(w), k) == WordBit(w, 7 - k)
  {
    HighTests(w);
    hide TestByte, TestWord, HighByte;
    if k == 0 {} else if k == 1 {} else if k == 2 {} else if k == 3 {}
    else if k == 4 {} else if k == 5 {} else if k == 6 {} else { assert k == 7; }
  }

  // Low byte first, least significant bit first: the checksum leaves in register
  // order.
  lemma {:induction false} ChecksumBytes(crc: word, data: seq<byte>)
    requires WordCells(crc) == Reverse(Checksum(data))
    ensures BitsOf([LowByte(crc), HighByte(crc)]) == Checksum(data)
  {
    hide ByteBit, WordBit, LowByte, HighByte, Checksum;
    var lo, hi := LowByte(crc), HighByte(crc);
    assert [lo, hi][1..] == [hi];
    assert BitsOf([lo, hi]) == ByteBits(lo) + ByteBits(hi);
    forall i | 0 <= i < 16
      ensures (ByteBits(lo) + ByteBits(hi))[i] == Checksum(data)[i]
    {
      assert WordCells(crc)[15 - i] == Checksum(data)[i];
      if i < 8 {
        LowBits(crc, i);
      } else {
        HighBits(crc, i - 8);
      }
    }
  }

  lemma {:induction false} FlippedAppend(a: seq<byte>, b: seq<byte>)
    ensures Flipped(a + b) == Flipped(a) + Flipped(b)
  {
    hide ByteBits;
    if a == [] {
      assert a + b == b;
    } else {
      assert (a + b)[1..] == a[1..] + b;
      FlippedAppend(a[1..], b);
    }
  }

  lemma {:induction false} FlipOneMore(was: seq<byte>, b: byte, done: seq<byte>, out: byte)
    requires BitsOf(done) == Flipped(was)
    requires ByteBits(out) == Reverse(ByteBits(b))
    ensures BitsOf(done + [out]) == Flipped(was + [b])
  {
    hide ByteBits, Reverse;
    BitsOfAppend(done, [out]);
    FlippedAppend(was, [b]);
    assert BitsOf([out]) == ByteBits(out) && Flipped([b]) == Reverse(ByteBits(b));
  }

  method FlipInPlace(buf: array<byte>, start: nat, len: nat)
    requires start + len <= buf.Length
    modifies buf
    ensures BitsOf(buf[start..start + len]) == Flipped(old(buf[start..start + len]))
    ensures buf[..start] == old(buf[..start])
    ensures buf[start + len..] == old(buf[start + len..])
  {
    ghost var was := buf[..];
    assert buf[start..start + 0] == [] == was[start..start + 0];
    assert BitsOf([]) == Flipped([]);
    hide ByteBit, BitsOf, Flipped, ByteBits, Reverse;
    for i := 0 to len
      invariant BitsOf(buf[start..start + i]) == Flipped(was[start..start + i])
      invariant buf[..start] == was[..start]
      invariant buf[start + i..] == was[start + i..]
    {
      var b := buf[start + i];
      assert b == was[start + i] by { assert b == buf[start + i..][0]; }
      ghost var done := buf[start..start + i];
      var out := ReverseBits8(b);
      buf[start + i] := out;
      assert buf[start..start + i + 1] == done + [out];
      assert was[start..start + i + 1] == was[start..start + i] + [b];
      FlipOneMore(was[start..start + i], b, done, out);
      assert buf[start + i + 1..] == buf[start + i..][1..] == was[start + i..][1..];
    }
    assert was[start..start + len] == old(buf[start..start + len]);
  }

  // memcpy into a buffer.
  method CopyIn(buf: array<byte>, start: nat, bytes: seq<byte>)
    requires start + |bytes| <= buf.Length
    modifies buf
    ensures buf[start..start + |bytes|] == bytes
    ensures buf[..start] == old(buf[..start])
    ensures buf[start + |bytes|..] == old(buf[start + |bytes|..])
  {
    ghost var was := buf[..];
    for i := 0 to |bytes|
      invariant buf[start..start + i] == bytes[..i]
      invariant buf[..start] == was[..start]
      invariant buf[start + i..] == was[start + i..]
    {
      ghost var done := buf[start..start + i];
      buf[start + i] := bytes[i];
      assert buf[start..start + i + 1] == done + [bytes[i]];
      assert buf[start + i + 1..] == was[start + i..][1..];
    }
  }

  lemma {:induction false} FramingBits(framing: seq<byte>)
    requires |framing| == 8
    requires BitsOf(framing) == Flipped(HEADER + Reverse(SEED))
    ensures BitsOf(framing[..3]) == HeaderBits()
    ensures BitsOf(framing[3..]) == SeedBits()
  {
    hide BitsOf, Flipped;
    FlippedAppend(HEADER, Reverse(SEED));
    assert framing == framing[..3] + framing[3..];
    BitsOfAppend(framing[..3], framing[3..]);
    assert BitsOf(framing)[..24] == BitsOf(framing[..3]) && BitsOf(framing)[24..] == BitsOf(framing[3..]);
  }

  lemma {:induction false} PlainBits(seed: seq<byte>, data: seq<byte>, checksum: seq<byte>)
    requires BitsOf(seed) == SeedBits() && BitsOf(checksum) == Checksum(data)
    ensures BitsOf(seed + data + checksum) == Plain(data)
  {
    hide BitsOf, SeedBits, Checksum;
    BitsOfAppend(seed + data, checksum);
    BitsOfAppend(seed, data);
  }

  // Header, reversed seed (both bit-flipped), data and checksum, from the header
  // offset on.
  method Stage(buf: array<byte>, data: seq<byte>)
    requires buf.Length == BUFFER_SIZE && HEADER_OFFSET + FRAMING + |data| <= BUFFER_SIZE
    modifies buf
    ensures BitsOf(buf[15..18]) == HeaderBits()
    ensures BitsOf(buf[18..25 + |data|]) == Plain(data)
  {
    hide BitsOf, Flipped, MessageRegister, HeaderBits, SeedBits, Plain, LowByte, HighByte, Reverse;
    var n := |data|;
    CopyIn(buf, 15, HEADER);
    ghost var lead := buf[..18];
    CopyIn(buf, 18, Reverse(SEED));
    assert lead[15..18] == buf[15..18] == HEADER;
    assert buf[15..23] == HEADER + Reverse(SEED);
    FlipInPlace(buf, 15, 8);
    assert BitsOf(buf[15..23]) == Flipped(HEADER + Reverse(SEED));
    FramingBits(buf[15..23]);
    lead := buf[..23];
    ghost var start, framing := lead, lead[15..23];
    assert framing == buf[15..23];
    CopyIn(buf, 23, data);
    assert buf[..23 + n] == lead + data;
    lead := buf[..23 + n];
    var crc := Crc16(SEED, data);
    ChecksumBytes(crc, data);
    ghost var checksum := [LowByte(crc), HighByte(crc)];
    CopyIn(buf, 23 + n, [LowByte(crc), HighByte(crc)]);
    assert buf[..23 + n] == lead && buf[23 + n..23 + n + 2] == checksum;
    assert buf[..25 + n] == lead + checksum;
    assert buf[..25 + n] == start + data + checksum;
    assert buf[15..18] == framing[..3];
    assert buf[18..25 + n] == framing[3..] + data + checksum;
    PlainBits(framing[3..], data, checksum);
  }

  // Both whitening passes over a staged buffer.
  method WhitenBuffer(buf: array<byte>, ghost data: seq<byte>, n: nat)
    requires buf.Length == BUFFER_SIZE && n == |data| && n + 25 <= BUFFER_SIZE
    requires BitsOf(buf[15..18]) == HeaderBits()
    requires BitsOf(buf[18..25 + n]) == Plain(data)
    modifies buf
    ensures buf[15..25 + n] == Encrypt(data)
  {
    hide Encrypt, Frame, Plain, HeaderBits, BitsOf, Holds, Whiten, Seeded;
    ghost var header := buf[..18];
    assert header[15..18] == buf[15..18];
    var ctx1 := new bool[7];
    WhiteningInit(CTX_VALUE_1, ctx1);
    WhiteningEncode(buf, 18, n + 7, ctx1, Seeded(CTX_VALUE_1));
    ghost var staged := buf[..25 + n];
    assert staged[15..18] == header[15..18] && staged[18..] == buf[18..25 + n];
    var ctx2 := new bool[7];
    WhiteningInit(CTX_VALUE_2, ctx2);
    assert staged == buf[0..0 + (25 + n)];
    WhiteningEncode(buf, 0, n + 25, ctx2, Seeded(CTX_VALUE_2));
    ghost var sent := buf[0..0 + (n + 25)];
    SecondPass(data, staged, sent);
    assert sent[15..] == buf[15..25 + n];
  }

  // mkh_protocol_encrypt: the whole transform, in a fixed 64-byte buffer.
  method MkhProtocolEncrypt(data: seq<byte>, out: array<byte>) returns (length: nat)
    modifies out
    ensures length == if |data| + FRAMING <= out.Length && |data| + 25 <= BUFFER_SIZE then |data| + FRAMING else 0
    ensures length > 0 ==> out[..length] == Encrypt(data)
    ensures out[length..] == old(out[length..])
  {
    hide Encrypt, Plain, HeaderBits, BitsOf;
    var n := |data|;
    if n + FRAMING > out.Length {
      return 0;
    }
    if n + 25 > BUFFER_SIZE {
      return 0;
    }
    var buf := new byte[BUFFER_SIZE](_ => 0);
    Stage(buf, data);
    WhitenBuffer(buf, data, n);
    CopyIn(out, 0, buf[HEADER_OFFSET..25 + n]);
    return n + FRAMING;
  }

  lemma {:induction false} SecondPass(data: seq<byte>, staged: seq<byte>, sent: seq<byte>)
    requires |staged| == |sent| == |data| + 25
    requires BitsOf(staged[15..18]) == HeaderBits()
    requires BitsOf(staged[18..]) == Whiten(Seeded(CTX_VALUE_1), 0, Plain(data))
    requires BitsOf(sent) == Whiten(Seeded(CTX_VALUE_2), 0, BitsOf(staged))
    ensures sent[15..] == Encrypt(data)
  {
    hide BitsOf, Frame, Whiten, Seeded;
    StagedFrame(data, staged);
    TailBits(staged, 15);
    TailBits(sent, 15);
    WhitenAppend(Seeded(CTX_VALUE_2), 0, BitsOf(staged[..15]), BitsOf(staged[15..]));
    BytesOfBits(sent[15..]);
  }

  lemma {:induction false} StagedFrame(data: seq<byte>, staged: seq<byte>)
    requires |staged| == |data| + 25
    requires BitsOf(staged[15..18]) == HeaderBits()
    requires BitsOf(staged[18..]) == Whiten(Seeded(CTX_VALUE_1), 0, Plain(data))
    ensures BitsOf(staged[15..]) == Frame(data)
  {
    hide BitsOf, HeaderBits, Plain, Whiten, Seeded;
    assert staged[15..] == staged[15..18] + staged[18..];
    BitsOfAppend(staged[15..18], staged[18..]);
  }

  lemma {:induction false} TailBits(bytes: seq<byte>, n: nat)
    requires n <= |bytes|
    ensures BitsOf(bytes) == BitsOf(bytes[..n]) + BitsOf(bytes[n..])
    ensures BitsOf(bytes)[8 * n..] == BitsOf(bytes[n..])
  {
    hide BitsOf;
    assert bytes == bytes[..n] + bytes[n..];
    BitsOfAppend(bytes[..n], bytes[n..]);
  }

  // mkh_protocol_control_telegram_neutral.
  method ControlTelegramNeutral(device: nat, out: array<byte>)
    requires device < NUM_DEVICES && out.Length == 10
    modifies out
    ensures out[..] == ControlTelegram(device, seq(NUM_CHANNELS, _ => NEUTRAL))
  {
    var base := [Address(device), 0x7B, 0xA7, 0x80, 0x80, 0x80, 0x80, 0x80, 0x80, Trailer(device)];
    CopyIn(out, 0, base);
    assert out[..] == out[0..0 + |base|];
  }

  // mkh_protocol_set_channel.
  method SetChannel(telegram: array<byte>, channel: nat, power: real)
    requires telegram.Length == 10 && channel < NUM_CHANNELS
    modifies telegram
    ensures telegram[..] == old(telegram[..])[3 + channel := PowerLevel(power) as byte]
  {
    telegram[3 + channel] := PowerLevel(power) as byte;
  }

  // Six channel bytes through the power conversion: they arrive unchanged.
  method BuildControlTelegram(device: nat, values: seq<byte>) returns (telegram: array<byte>)
    requires device < NUM_DEVICES && |values| == NUM_CHANNELS
    ensures fresh(telegram) && telegram.Length == 10
    ensures telegram[..] == ControlTelegram(device, values)
  {
    telegram := new byte[10];
    ControlTelegramNeutral(device, telegram);
    for ch := 0 to NUM_CHANNELS
      invariant telegram[..] == ControlTelegram(device, values[..ch] + seq(NUM_CHANNELS - ch, _ => NEUTRAL))
    {
      hide PowerLevel, PowerOf, Address, Trailer;
      PowerLevelOfByte(values[ch]);
      SetChannel(telegram, ch, PowerOf(values[ch]));
      assert values[..ch + 1] == values[..ch] + [values[ch]];
    }
    assert values[..NUM_CHANNELS] + seq(0, _ => NEUTRAL) == values;
  }
}
