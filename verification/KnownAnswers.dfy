// A worked example: the eighteen bytes on the air for the CONNECT telegram, byte by byte through
// checksum, framing and both whitening passes.
module KnownAnswers {
  import opened Wrappers
  import opened Bits
  import opened Crc
  import opened Whitening
  import opened Protocol

  // ---- The checksum, a byte at a time ------------------------------------------------

  function Steps(r: word, n: nat): word {
    if n == 0 then r else Crc.Step(Steps(r, n - 1))
  }

  // The register after a byte is added at its top.
  function AddByte(r: word, b: byte): word {
    Steps(XorWords(r, AtTop(b)), 8)
  }

  lemma {:induction false} StepsFeedZeros(r: word, n: nat)
    ensures WordCells(Steps(r, n)) == FeedAll(WordCells(r), Zeros(n))
  {
    hide Crc.Step, WordCells, Feed;
    if n > 0 {
      StepsFeedZeros(r, n - 1);
      StepIsFeed(Steps(r, n - 1));
      FeedAllAppend(WordCells(r), Zeros(n - 1), [false]);
      assert Zeros(n - 1) + [false] == Zeros(n);
      assert FeedAll(WordCells(Steps(r, n - 1)), [false]) == Feed(WordCells(Steps(r, n - 1)), false);
    }
  }

  lemma {:induction false} AddByteFeeds(r: word, b: byte)
    ensures WordCells(AddByte(r, b)) == FeedAll(WordCells(r), Reverse(ByteBits(b)))
  {
    hide WordBit, ByteBit, Feed, AtTop, Crc.Step, XorWords, Steps;
    var start := Xor(WordCells(r), TopBits(Reverse(ByteBits(b))));
    forall i | 0 <= i < 16
      ensures WordCells(XorWords(r, AtTop(b)))[i] == start[i]
    {
      XorWordsCell(r, AtTop(b), i);
      TopByte(b, i);
    }
    assert WordCells(XorWords(r, AtTop(b))) == start;
    StepsFeedZeros(XorWords(r, AtTop(b)), 8);
    BlockFeed(WordCells(r), Reverse(ByteBits(b)));
  }

  // A byte in the other bit order.
  function FlipByte(b: byte): byte {
    Packed(TestByte(b, 128), TestByte(b, 64), TestByte(b, 32), TestByte(b, 16), TestByte(b, 8), TestByte(b, 4),
           TestByte(b, 2), TestByte(b, 1))
  }

  lemma {:induction false} FlipByteBits(b: byte)
    ensures ByteBits(FlipByte(b)) == Reverse(ByteBits(b))
  {
    var s := Reverse(ByteBits(b));
    assert FlipByte(b) == PackByte(s);
    PackByteBits(s);
  }

  lemma {:induction false} AddFlippedFeeds(r: word, b: byte)
    ensures WordCells(AddByte(r, FlipByte(b))) == FeedAll(WordCells(r), ByteBits(b))
  {
    hide FlipByte, ByteBit, Feed, AddByte, WordBit;
    AddByteFeeds(r, FlipByte(b));
    FlipByteBits(b);
    assert Reverse(Reverse(ByteBits(b))) == ByteBits(b);
  }

  // The register after seed bytes, last first, and after data bytes.
  function AfterSeed(r: word, seed: seq<byte>): word {
    if seed == [] then r else AddByte(AfterSeed(r, seed[1..]), seed[0])
  }

  function AfterData(r: word, data: seq<byte>): word
    decreases |data|
  {
    if data == [] then r else AfterData(AddByte(r, FlipByte(data[0])), data[1..])
  }

  lemma {:induction false} AfterSeedIs(r: word, seed: seq<byte>)
    ensures WordCells(AfterSeed(r, seed)) == FeedAll(WordCells(r), Reverse(BitsOf(seed)))
  {
    hide AddByte, WordCells, Feed, ByteBits;
    if seed == [] {
      assert Reverse(BitsOf(seed)) == [];
    } else {
      AfterSeedIs(r, seed[1..]);
      AddByteFeeds(AfterSeed(r, seed[1..]), seed[0]);
      var rest := BitsOf(seed[1..]);
      assert Reverse(ByteBits(seed[0]) + rest) == Reverse(rest) + Reverse(ByteBits(seed[0]));
      FeedAllAppend(WordCells(r), Reverse(rest), Reverse(ByteBits(seed[0])));
    }
  }

  lemma {:induction false} AfterDataIs(r: word, data: seq<byte>)
    ensures WordCells(AfterData(r, data)) == FeedAll(WordCells(r), BitsOf(data))
    decreases |data|
  {
    hide AddByte, WordCells, Feed, ByteBits, FlipByte;
    if data != [] {
      AddFlippedFeeds(r, data[0]);
      AfterDataIs(AddByte(r, FlipByte(data[0])), data[1..]);
      FeedAllAppend(WordCells(r), ByteBits(data[0]), BitsOf(data[1..]));
    }
  }

  lemma {:induction false} OnesWord()
    ensures WordCells(0xFFFF) == Ones(16) && WordCells(0) == Zeros(16)
  {
  }

  lemma {:induction false} EightSteps(r: word, b: byte, out: word)
    requires var s := XorWords(r, AtTop(b));
             Crc.Step(Crc.Step(Crc.Step(Crc.Step(Crc.Step(Crc.Step(Crc.Step(Crc.Step(s)))))))) == out
    ensures AddByte(r, b) == out
  {
    hide Crc.Step, XorWords, AtTop;
    var s := XorWords(r, AtTop(b));
    assert Steps(s, 1) == Crc.Step(Steps(s, 0));
    assert Steps(s, 2) == Crc.Step(Steps(s, 1));
    assert Steps(s, 3) == Crc.Step(Steps(s, 2));
    assert Steps(s, 4) == Crc.Step(Steps(s, 3));
    assert Steps(s, 5) == Crc.Step(Steps(s, 4));
    assert Steps(s, 6) == Crc.Step(Steps(s, 5));
    assert Steps(s, 7) == Crc.Step(Steps(s, 6));
  }

  // The standard residue of this code, 0x1D0F.
  lemma {:induction false} ResidueIs()
    ensures RESIDUE == WordCells(0x1D0F)
  {
    hide WordCells, FeedAll, AddByte;
    EightSteps(0, 0xFF, 0x1EF0);
    EightSteps(0x1EF0, 0xFF, 0x1D0F);
    AddByteFeeds(0, 0xFF);
    AddByteFeeds(0x1EF0, 0xFF);
    OnesWord();
    OnesByte();
    FeedAllAppend(Zeros(16), Ones(8), Ones(8));
    assert Ones(8) + Ones(8) == Ones(16);
  }

  lemma {:induction false} OnesByte()
    ensures Reverse(ByteBits(0xFF)) == Ones(8)
  {
  }

  // The register after the five address bytes.
  lemma {:induction false} SeedAnswer()
    ensures SeedRegister(SEED) == WordCells(0xBE4A)
  {
    hide AddByte, WordCells, FeedAll, AfterSeed;
    NoMoreSeed(0xFFFF, SEED);
    EightSteps(0xFFFF, 0xC5, 0x6819);
    PeelSeed(0xFFFF, SEED, 4, 0xC5, 0xFFFF, 0x6819);
    EightSteps(0x6819, 0xC4, 0x6D66);
    PeelSeed(0xFFFF, SEED, 3, 0xC4, 0x6819, 0x6D66);
    EightSteps(0x6D66, 0xC3, 0x3224);
    PeelSeed(0xFFFF, SEED, 2, 0xC3, 0x6D66, 0x3224);
    EightSteps(0x3224, 0xC2, 0xCB1F);
    PeelSeed(0xFFFF, SEED, 1, 0xC2, 0x3224, 0xCB1F);
    EightSteps(0xCB1F, 0xC1, 0xBE4A);
    PeelSeed(0xFFFF, SEED, 0, 0xC1, 0xCB1F, 0xBE4A);
    assert SEED[0..] == SEED;
    AfterSeedIs(0xFFFF, SEED);
    OnesWord();
  }

  lemma {:induction false} NoMoreSeed(r: word, seed: seq<byte>)
    ensures AfterSeed(r, seed[|seed|..]) == r
  {
  }

  lemma {:induction false} PeelSeed(r: word, seed: seq<byte>, i: nat, b: byte, before: word, after: word)
    requires i < |seed| && seed[i] == b && AfterSeed(r, seed[i + 1..]) == before && AddByte(before, b) == after
    ensures AfterSeed(r, seed[i..]) == after
  {
    hide AddByte;
    assert seed[i..][1..] == seed[i + 1..];
  }

  const CONNECT: seq<byte> := [0x6D, 0x7B, 0xA7, 0x80, 0x80, 0x80, 0x80, 0x92]

  // And after the eight CONNECT bytes: its complement, bits reversed, is the checksum 0x8AAE.
  lemma {:induction false} DataAnswer()
    ensures FeedAll(SeedRegister(SEED), BitsOf(CONNECT)) == WordCells(0x8AAE)
  {
    hide AddByte, WordCells, FeedAll, AfterData, FlipByte;
    SeedAnswer();
    FlipAnswers();
    EightSteps(0xBE4A, 0xB6, 0xCB08);
    PeelData(0xBE4A, CONNECT, 0, 0x6D, 0xCB08);
    EightSteps(0xCB08, 0xDE, 0x4A94);
    PeelData(0xCB08, CONNECT, 1, 0x7B, 0x4A94);
    EightSteps(0x4A94, 0xE5, 0xD005);
    PeelData(0x4A94, CONNECT, 2, 0xA7, 0xD005);
    EightSteps(0xD005, 0x01, 0xDE5C);
    PeelData(0xD005, CONNECT, 3, 0x80, 0xDE5C);
    EightSteps(0xDE5C, 0x01, 0x6692);
    PeelData(0xDE5C, CONNECT, 4, 0x80, 0x6692);
    EightSteps(0x6692, 0x01, 0x8E41);
    PeelData(0x6692, CONNECT, 5, 0x80, 0x8E41);
    EightSteps(0x8E41, 0x01, 0x2167);
    PeelData(0x8E41, CONNECT, 6, 0x80, 0x2167);
    EightSteps(0x2167, 0x49, 0x8AAE);
    PeelData(0x2167, CONNECT, 7, 0x92, 0x8AAE);
    assert CONNECT[0..] == CONNECT;
    NoMoreData(0x8AAE, CONNECT);
    AfterDataIs(0xBE4A, CONNECT);
  }

  lemma {:induction false} NoMoreData(r: word, data: seq<byte>)
    ensures AfterData(r, data[|data|..]) == r
  {
  }

  lemma {:induction false} PeelData(before: word, data: seq<byte>, i: nat, b: byte, after: word)
    requires i < |data| && data[i] == b && AddByte(before, FlipByte(b)) == after
    ensures AfterData(before, data[i..]) == AfterData(after, data[i + 1..])
  {
    hide AddByte, FlipByte;
    assert data[i..][1..] == data[i + 1..];
  }

  lemma {:induction false} FlipAnswers()
    ensures FlipByte(0x6D) == 0xB6
    ensures FlipByte(0x7B) == 0xDE
    ensures FlipByte(0x80) == 0x01
    ensures FlipByte(0x92) == 0x49
    ensures FlipByte(0xA7) == 0xE5
  {
  }

  // ---- The keystreams, a byte at a time ----------------------------------------------------

  // One keystream byte determines the next: every bit is the one seven places back plus the one
  // three places back.
  predicate Follows(k: byte, k': byte) {
    k' == ((k >> 1) | (k' << 7)) ^ ((k >> 5) | (k' << 3))
  }

  lemma {:induction false} FollowsBit(k: byte, k': byte, j: nat)
    requires Follows(k, k') && j < 8
    ensures ByteBit(k', j) == ((if j < 7 then ByteBit(k, j + 1) else ByteBit(k', 0))
                               != (if j < 3 then ByteBit(k, j + 5) else ByteBit(k', j - 3)))
  {
    if j == 0 {} else if j == 1 {} else if j == 2 {} else if j == 3 {}
    else if j == 4 {} else if j == 5 {} else if j == 6 {} else { assert j == 7; }
  }

  predicate Chain(keys: seq<byte>) {
    forall i :: 0 <= i < |keys| - 1 ==> Follows(keys[i], keys[i + 1])
  }

  // Bytes that start like a keystream and follow each other are that keystream.
  lemma {:induction false} ChainBit(l: Lfsr, keys: seq<byte>, i: nat, j: nat)
    requires Chain(keys) && i < |keys| && j < 8
    requires forall k :: 0 <= k < 8 ==> After(l, k).p6 == ByteBit(keys[0], k)
    ensures After(l, 8 * i + j).p6 == ByteBit(keys[i], j)
    decreases i, j
  {
    hide ByteBit, After, Follows;
    if i > 0 {
      var n := 8 * i + j - 7;
      KeystreamRecurrence(l, n);
      FollowsBit(keys[i - 1], keys[i], j);
      if j < 7 {
        ChainBit(l, keys, i - 1, j + 1);
      } else {
        ChainBit(l, keys, i, 0);
      }
      if j < 3 {
        ChainBit(l, keys, i - 1, j + 5);
      } else {
        ChainBit(l, keys, i, j - 3);
      }
    }
  }

  lemma {:induction false} BitOfBytes(bytes: seq<byte>, i: nat, j: nat)
    requires i < |bytes| && j < 8
    ensures BitsOf(bytes)[8 * i + j] == ByteBit(bytes[i], j)
  {
    hide ByteBit;
    if i > 0 {
      BitOfBytes(bytes[1..], i - 1, j);
    }
  }

  lemma {:induction false} ChainIsKeystream(l: Lfsr, keys: seq<byte>)
    requires Chain(keys) && keys != []
    requires forall k :: 0 <= k < 8 ==> After(l, k).p6 == ByteBit(keys[0], k)
    ensures Keystream(l, 0, 8 * |keys|) == BitsOf(keys)
  {
    hide ByteBit, After, Follows, BitsOf, Chain;
    forall m | 0 <= m < 8 * |keys|
      ensures Keystream(l, 0, 8 * |keys|)[m] == BitsOf(keys)[m]
    {
      ChainBit(l, keys, m / 8, m % 8);
      BitOfBytes(keys, m / 8, m % 8);
    }
  }

  lemma {:induction false} FirstBits(l: Lfsr)
    ensures After(l, 0).p6 == l.p6 && After(l, 1).p6 == l.p5 && After(l, 2).p6 == l.p4
    ensures After(l, 3).p6 == (l.p3 != l.p6) && After(l, 4).p6 == (l.p2 != l.p5) && After(l, 5).p6 == (l.p1 != l.p4)
    ensures After(l, 6).p6 == (l.p0 != (l.p3 != l.p6)) && After(l, 7).p6 == (l.p6 != (l.p2 != l.p5))
  {
    assert After(l, 1) == Shift(l);
    assert After(l, 2) == Shift(After(l, 1));
    assert After(l, 3) == Shift(After(l, 2));
    assert After(l, 4) == Shift(After(l, 3));
    assert After(l, 5) == Shift(After(l, 4));
    assert After(l, 6) == Shift(After(l, 5));
    assert After(l, 7) == Shift(After(l, 6));
  }

  lemma {:induction false} StartsLike(l: Lfsr, k: byte)
    requires ByteBit(k, 0) == l.p6 && ByteBit(k, 1) == l.p5 && ByteBit(k, 2) == l.p4
    requires ByteBit(k, 3) == (l.p3 != l.p6) && ByteBit(k, 4) == (l.p2 != l.p5) && ByteBit(k, 5) == (l.p1 != l.p4)
    requires ByteBit(k, 6) == (l.p0 != (l.p3 != l.p6)) && ByteBit(k, 7) == (l.p6 != (l.p2 != l.p5))
    ensures forall i :: 0 <= i < 8 ==> After(l, i).p6 == ByteBit(k, i)
  {
    hide After, ByteBit;
    FirstBits(l);
  }

  const KEYS_1: seq<byte> := [
    0xC7, 0x8D, 0xD2, 0x57, 0xA1, 0x3D, 0xA7, 0x66, 0xB0, 0x75, 0x31, 0x11, 0x48, 0x96, 0x77]

  // The first pass, key 0x3F.
  lemma {:induction false} FirstKeystream()
    ensures Keystream(Seeded(CTX_VALUE_1), 0, 120) == BitsOf(KEYS_1)
  {
    FirstSeed();
    FirstChain();
    hide KEYS_1, Chain, Seeded, CTX_VALUE_1;
    ChainIsKeystream(Seeded(CTX_VALUE_1), KEYS_1);
  }

  lemma {:induction false} FirstSeed()
    ensures |KEYS_1| == 15
    ensures forall i :: 0 <= i < 8 ==> After(Seeded(CTX_VALUE_1), i).p6 == ByteBit(KEYS_1[0], i)
  {
    hide After;
    StartsLike(Seeded(0x3F), 0xC7);
  }

  lemma {:induction false} FirstChain()
    ensures Chain(KEYS_1)
  {
    assert Follows(0xC7, 0x8D) && Follows(0x8D, 0xD2) && Follows(0xD2, 0x57) && Follows(0x57, 0xA1);
    assert Follows(0xA1, 0x3D) && Follows(0x3D, 0xA7) && Follows(0xA7, 0x66) && Follows(0x66, 0xB0);
    assert Follows(0xB0, 0x75) && Follows(0x75, 0x31) && Follows(0x31, 0x11) && Follows(0x11, 0x48);
    assert Follows(0x48, 0x96) && Follows(0x96, 0x77);
  }

  const KEYS_2: seq<byte> := [
    0x8D, 0xD2, 0x57, 0xA1, 0x3D, 0xA7, 0x66, 0xB0, 0x75, 0x31, 0x11, 0x48, 0x96, 0x77, 0xF8, 0xE3,
    0x46, 0xE9, 0xAB, 0xD0, 0x9E, 0x53, 0x33, 0xD8, 0xBA, 0x98, 0x08, 0x24, 0xCB, 0x3B, 0xFC, 0x71,
    0xA3]

  // The second pass, key 0x25: Bluetooth LE channel 37.
  lemma {:induction false} SecondKeystream()
    ensures Keystream(Seeded(CTX_VALUE_2), 0, 264) == BitsOf(KEYS_2)
  {
    SecondSeed();
    SecondChain();
    hide KEYS_2, Chain, Seeded, CTX_VALUE_2;
    ChainIsKeystream(Seeded(CTX_VALUE_2), KEYS_2);
  }

  lemma {:induction false} SecondSeed()
    ensures |KEYS_2| == 33
    ensures forall i :: 0 <= i < 8 ==> After(Seeded(CTX_VALUE_2), i).p6 == ByteBit(KEYS_2[0], i)
  {
    hide After;
    StartsLike(Seeded(0x25), 0x8D);
  }

  lemma {:induction false} SecondLinks()
    ensures Follows(0x8D, 0xD2) && Follows(0xD2, 0x57) && Follows(0x57, 0xA1) && Follows(0xA1, 0x3D)
    ensures Follows(0x3D, 0xA7) && Follows(0xA7, 0x66) && Follows(0x66, 0xB0) && Follows(0xB0, 0x75)
    ensures Follows(0x75, 0x31) && Follows(0x31, 0x11) && Follows(0x11, 0x48) && Follows(0x48, 0x96)
    ensures Follows(0x96, 0x77) && Follows(0x77, 0xF8) && Follows(0xF8, 0xE3) && Follows(0xE3, 0x46)
    ensures Follows(0x46, 0xE9)
  {
  }

  lemma {:induction false} MoreSecondLinks()
    ensures Follows(0xE9, 0xAB) && Follows(0xAB, 0xD0) && Follows(0xD0, 0x9E) && Follows(0x9E, 0x53)
    ensures Follows(0x53, 0x33) && Follows(0x33, 0xD8) && Follows(0xD8, 0xBA) && Follows(0xBA, 0x98)
    ensures Follows(0x98, 0x08) && Follows(0x08, 0x24) && Follows(0x24, 0xCB) && Follows(0xCB, 0x3B)
    ensures Follows(0x3B, 0xFC) && Follows(0xFC, 0x71) && Follows(0x71, 0xA3)
  {
  }

  lemma {:induction false} SecondChain()
    ensures Chain(KEYS_2)
  {
    hide Follows;
    SecondLinks();
    MoreSecondLinks();
  }

  // ---- The answer --------------------------------------------------------------------------------

  // The header bit by bit reversed; seed, data and checksum; and what goes on the air.
  const FLIPPED_HEADER: seq<byte> := [0x8E, 0xF0, 0xAA]
  const FLIPPED_SEED: seq<byte> := [0xA3, 0x23, 0xC3, 0x43, 0x83]
  const CHECKSUM: seq<byte> := [0xAE, 0x8A]
  const ANSWER: seq<byte> := [
    0x6D, 0xB6, 0x43, 0xCF, 0x7E, 0x8F, 0x47, 0x11, 0x88,
    0x66, 0x59, 0x38, 0xD1, 0x7A, 0xAA, 0x26, 0x49, 0x5E]

  lemma {:induction false} HeaderAnswer()
    ensures HeaderBits() == BitsOf(FLIPPED_HEADER)
  {
    assert HEADER[1..] == [0x0f, 0x55] && HEADER[1..][1..] == [0x55] && HEADER[1..][1..][1..] == [];
    assert FLIPPED_HEADER[1..] == [0xF0, 0xAA] && FLIPPED_HEADER[1..][1..] == [0xAA];
    assert FLIPPED_HEADER[1..][1..][1..] == [];
    FlippedAnswer(0x71, 0x8E);
    FlippedAnswer(0x0F, 0xF0);
    FlippedAnswer(0x55, 0xAA);
  }

  lemma {:induction false} FlippedAnswer(b: byte, f: byte)
    requires FlipByte(b) == f
    ensures Reverse(ByteBits(b)) == ByteBits(f)
  {
    FlipByteBits(b);
  }

  lemma {:induction false} SeedBitsAnswer()
    ensures SeedBits() == BitsOf(FLIPPED_SEED)
  {
    FlippedAnswer(0xC5, 0xA3);
    FlippedAnswer(0xC4, 0x23);
    FlippedAnswer(0xC3, 0xC3);
    FlippedAnswer(0xC2, 0x43);
    FlippedAnswer(0xC1, 0x83);
    hide ByteBits, FlipByte;
    assert Reverse(SEED) == [0xC5, 0xC4, 0xC3, 0xC2, 0xC1];
    FiveFlipped(0xC5, 0xC4, 0xC3, 0xC2, 0xC1, 0xA3, 0x23, 0xC3, 0x43, 0x83);
  }

  lemma {:induction false} FiveFlipped(a: byte, b: byte, c: byte, d: byte, e: byte, a': byte, b': byte, c': byte,
                                       d': byte, e': byte)
    requires Reverse(ByteBits(a)) == ByteBits(a') && Reverse(ByteBits(b)) == ByteBits(b')
    requires Reverse(ByteBits(c)) == ByteBits(c') && Reverse(ByteBits(d)) == ByteBits(d')
    requires Reverse(ByteBits(e)) == ByteBits(e')
    ensures Flipped([a, b, c, d, e]) == BitsOf([a', b', c', d', e'])
  {
    hide ByteBits, Reverse, Flipped, BitsOf;
    OneFlipped(a, a', [b, c, d, e], [b', c', d', e']);
    OneFlipped(b, b', [c, d, e], [c', d', e']);
    OneFlipped(c, c', [d, e], [d', e']);
    OneFlipped(d, d', [e], [e']);
    OneFlipped(e, e', [], []);
    assert [a] + [b, c, d, e] == [a, b, c, d, e] && [a'] + [b', c', d', e'] == [a', b', c', d', e'];
    assert [b] + [c, d, e] == [b, c, d, e] && [b'] + [c', d', e'] == [b', c', d', e'];
    assert [c] + [d, e] == [c, d, e] && [c'] + [d', e'] == [c', d', e'];
    assert [d] + [e] == [d, e] && [d'] + [e'] == [d', e'] && [e] + [] == [e] && [e'] + [] == [e'];
  }

  lemma {:induction false} OneFlipped(b: byte, b': byte, rest: seq<byte>, rest': seq<byte>)
    requires Reverse(ByteBits(b)) == ByteBits(b')
    ensures Flipped(rest) == BitsOf(rest') ==> Flipped([b] + rest) == BitsOf([b'] + rest')
    ensures rest == [] && rest' == [] ==> Flipped(rest) == BitsOf(rest')
  {
    assert ([b] + rest)[1..] == rest && ([b'] + rest')[1..] == rest';
  }

  lemma {:induction false} ChecksumAnswer()
    ensures Protocol.Checksum(CONNECT) == BitsOf(CHECKSUM)
  {
    DataAnswer();
    ComplementAnswer();
    hide WordCells, BitsOf, FeedAll;
  }

  lemma {:induction false} ComplementAnswer()
    ensures Not(WordCells(0x8AAE)) == BitsOf(CHECKSUM)
  {
    assert CHECKSUM[1..] == [0x8A] && CHECKSUM[1..][1..] == [];
    assert BitsOf(CHECKSUM) == ByteBits(0xAE) + ByteBits(0x8A);
  }

  lemma {:induction false} PlainAnswer()
    ensures Plain(CONNECT) == BitsOf(FLIPPED_SEED + CONNECT + CHECKSUM)
  {
    SeedBitsAnswer();
    ChecksumAnswer();
    hide SeedBits, Protocol.Checksum, FLIPPED_SEED, CONNECT, CHECKSUM;
    BitsOfAppend(FLIPPED_SEED + CONNECT, CHECKSUM);
    BitsOfAppend(FLIPPED_SEED, CONNECT);
  }

  // Whitening bytes with a keystream given in bytes.
  lemma {:induction false} WhitenBytes(l: Lfsr, phase: nat, bytes: seq<byte>, keys: seq<byte>)
    requires |bytes| == |keys| && Keystream(l, phase, 8 * |keys|) == BitsOf(keys)
    ensures Whiten(l, phase, BitsOf(bytes)) == BitsOf(XorBytes(bytes, keys))
  {
    hide BitsOf;
    BitsOfXor(bytes, keys);
  }

  lemma {:induction false} LateKeystream()
    ensures |KEYS_2| == 33
    ensures Keystream(Seeded(CTX_VALUE_2), FRAME_PHASE, 144) == BitsOf(KEYS_2[15..])
  {
    SecondKeystream();
    SecondSeed();
    hide KEYS_2, BitsOf, Seeded, CTX_VALUE_2, ByteBit, After;
    BitsOfAppend(KEYS_2[..15], KEYS_2[15..]);
    assert KEYS_2[..15] + KEYS_2[15..] == KEYS_2;
    var all := Keystream(Seeded(CTX_VALUE_2), 0, 264);
    assert all[120..] == BitsOf(KEYS_2[15..]);
    assert all[120..] == Keystream(Seeded(CTX_VALUE_2), FRAME_PHASE, 144);
  }

  const INNER: seq<byte> := [
    0x64, 0xAE, 0x11, 0x14, 0x22, 0x50, 0xDC, 0xC1, 0x30,
    0xF5, 0xB1, 0x91, 0xDA, 0x38, 0xFD]

  lemma {:induction false} InnerAnswer()
    ensures |FLIPPED_SEED + CONNECT + CHECKSUM| == |KEYS_1| == 15
    ensures XorBytes(FLIPPED_SEED + CONNECT + CHECKSUM, KEYS_1) == INNER
  {
  }

  lemma {:induction false} OuterAnswer()
    ensures |FLIPPED_HEADER + INNER| == |KEYS_2[15..]| == 18
    ensures XorBytes(FLIPPED_HEADER + INNER, KEYS_2[15..]) == ANSWER
  {
  }

  // The payload of the CONNECT telegram, byte for byte.
  lemma {:induction false} ConnectAnswer()
    ensures Encrypt([0x6D, 0x7B, 0xA7, 0x80, 0x80, 0x80, 0x80, 0x92])
         == [0x6D, 0xB6, 0x43, 0xCF, 0x7E, 0x8F, 0x47, 0x11, 0x88,
             0x66, 0x59, 0x38, 0xD1, 0x7A, 0xAA, 0x26, 0x49, 0x5E]
  {
    assert CONNECT == [0x6D, 0x7B, 0xA7, 0x80, 0x80, 0x80, 0x80, 0x92];
    assert ANSWER == [0x6D, 0xB6, 0x43, 0xCF, 0x7E, 0x8F, 0x47, 0x11, 0x88,
                      0x66, 0x59, 0x38, 0xD1, 0x7A, 0xAA, 0x26, 0x49, 0x5E];
    FrameAnswer();
    hide *;
    WhitenTwice(Seeded(CTX_VALUE_2), FRAME_PHASE, BitsOf(ANSWER));
    SamePayload(ANSWER, CONNECT);
  }

  lemma {:induction false} FrameAnswer()
    ensures Unwhitened(ANSWER) == Frame(CONNECT)
  {
    HeaderAnswer();
    PlainAnswer();
    FirstKeystream();
    LateKeystream();
    InnerAnswer();
    OuterAnswer();
    hide HeaderBits, Plain, Keystream, BitsOf, FLIPPED_HEADER, FLIPPED_SEED, CONNECT, CHECKSUM, INNER, ANSWER, KEYS_1,
         KEYS_2, Seeded, XorBytes, Whiten;
    WhitenBytes(Seeded(CTX_VALUE_1), 0, FLIPPED_SEED + CONNECT + CHECKSUM, KEYS_1);
    BitsOfAppend(FLIPPED_HEADER, INNER);
    assert Frame(CONNECT) == BitsOf(FLIPPED_HEADER + INNER);
    WhitenBytes(Seeded(CTX_VALUE_2), FRAME_PHASE, FLIPPED_HEADER + INNER, KEYS_2[15..]);
    WhitenTwice(Seeded(CTX_VALUE_2), FRAME_PHASE, BitsOf(FLIPPED_HEADER + INNER));
  }
}
