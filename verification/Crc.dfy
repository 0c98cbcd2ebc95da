// The CRC-16 of main/mkh_protocol.c: its bit-serial register as a linear machine
// over GF(2), the laws that make it an error-detecting code, and the byte loops
// of the source proved against that machine.
module Crc {
  import opened Bits

  type Register = r: BitString | |r| == 16 witness Zeros(16)

  // The generator 0x1021 (x^12 + x^5 + 1 below the x^16 that is shifted out),
  // by register cell.
  predicate Tap(i: int) {
    i == 3 || i == 10 || i == 15
  }

  // One bit enters at the top cell, the register shifts towards it, and a set
  // outgoing bit adds the generator.
  function Feed(r: Register, b: bool): (r': Register)
  {
    var carry := r[0] != b;
    seq(16, i requires 0 <= i < 16 => (i < 15 && r[i + 1]) != (carry && Tap(i)))
  }

  function FeedAll(r: Register, bits: BitString): (r': Register)
    decreases |bits|
  {
    if bits == [] then r else FeedAll(Feed(r, bits[0]), bits[1..])
  }

  function Reverse<T>(s: seq<T>): (r: seq<T>)
    ensures |r| == |s|
  {
    seq(|s|, i requires 0 <= i < |s| => s[|s| - 1 - i])
  }

  // The register after the seed (last byte first, most significant bit first)
  // and the data (first byte first, least significant bit first).
  function SeedRegister(seed: seq<byte>): (r: Register)
  {
    FeedAll(Ones(16), Reverse(BitsOf(seed)))
  }

  function MessageRegister(seed: seq<byte>, data: seq<byte>): (r: Register)
  {
    FeedAll(SeedRegister(seed), BitsOf(data))
  }

  // What the register holds after a message followed by its own checksum.
  const RESIDUE: Register := FeedAll(Zeros(16), Ones(16))

  // ---- Laws of the register ----------------------------------------------

  lemma {:induction false} FeedIsLinear(r: Register, s: Register, a: bool, b: bool)
    ensures Feed(Xor(r, s), a != b) == Xor(Feed(r, a), Feed(s, b))
  {
  }

  lemma {:induction false} FeedAllIsLinear(r: Register, s: Register, a: BitString, b: BitString)
    requires |a| == |b|
    ensures FeedAll(Xor(r, s), Xor(a, b)) == Xor(FeedAll(r, a), FeedAll(s, b))
    decreases |a|
  {
    if a != [] {
      FeedIsLinear(r, s, a[0], b[0]);
      assert Xor(a, b)[1..] == Xor(a[1..], b[1..]);
      FeedAllIsLinear(Feed(r, a[0]), Feed(s, b[0]), a[1..], b[1..]);
    }
  }

  // The register is affine in seed register and data: the same linear part
  // whatever the starting value.
  lemma {:induction false} RegisterIsAffine(seed: seq<byte>, a: seq<byte>, b: seq<byte>)
    requires |a| == |b|
    ensures MessageRegister(seed, XorBytes(a, b))
         == Xor(MessageRegister(seed, a), FeedAll(Zeros(16), BitsOf(b)))
  {
    var r := SeedRegister(seed);
    assert Xor(r, Zeros(16)) == r;
    BitsOfXor(a, b);
    FeedAllIsLinear(r, Zeros(16), BitsOf(a), BitsOf(b));
  }

  lemma {:induction false} FeedAllAppend(r: Register, a: BitString, b: BitString)
    ensures FeedAll(r, a + b) == FeedAll(FeedAll(r, a), b)
    decreases |a|
  {
    if a == [] {
      assert a + b == b;
    } else {
      assert (a + b)[1..] == a[1..] + b;
      FeedAllAppend(Feed(r, a[0]), a[1..], b);
    }
  }

  // The kernel: up to sixteen bits bring the register to zero exactly when they
  // spell its own top cells and the remaining cells are already zero.
  lemma {:induction false} FeedAllKernel(r: Register, bits: BitString)
    requires |bits| <= 16
    ensures FeedAll(r, bits) == Zeros(16) <==> r == bits + Zeros(16 - |bits|)
    decreases |bits|
  {
    if bits == [] {
      assert [] + Zeros(16) == Zeros(16);
    } else {
      var r' := Feed(r, bits[0]);
      var target := bits[1..] + Zeros(17 - |bits|);
      FeedAllKernel(r', bits[1..]);
      assert target[15] == false;
      if r' == target {
        assert r'[15] == (r[0] != bits[0]);
        forall i | 0 <= i < 16
          ensures r[i] == (bits + Zeros(16 - |bits|))[i]
        {
          if i > 0 {
            assert r'[i - 1] == r[i];
          }
        }
      }
      if r == bits + Zeros(16 - |bits|) {
        assert r[0] == bits[0];
        forall i | 0 <= i < 16
          ensures r'[i] == target[i]
        {
        }
      }
    }
  }

  // Any run of zero bits keeps a non-zero register non-zero.
  lemma {:induction false} ZerosKeepNonZero(r: Register, n: nat)
    requires r != Zeros(16)
    ensures FeedAll(r, Zeros(n)) != Zeros(16)
    decreases n
  {
    if n > 0 {
      FeedAllKernel(r, [false]);
      assert [false] + Zeros(15) == Zeros(16);
      assert FeedAll(r, [false]) == Feed(r, false);
      assert Zeros(n)[1..] == Zeros(n - 1);
      ZerosKeepNonZero(Feed(r, false), n - 1);
    }
  }

  lemma {:induction false} ZerosKeepZero(n: nat)
    ensures FeedAll(Zeros(16), Zeros(n)) == Zeros(16)
  {
    if n > 0 {
      assert Feed(Zeros(16), false) == Zeros(16);
      assert Zeros(n)[1..] == Zeros(n - 1);
      ZerosKeepZero(n - 1);
    }
  }

  // ---- The code: residue and burst detection ------------------------------

  lemma {:induction false} XorCancel(k: Register, c: Register)
    ensures Xor(k, c) == c <==> k == Zeros(16)
  {
    if Xor(k, c) == c {
      forall i | 0 <= i < 16
        ensures !k[i]
      {
        assert Xor(k, c)[i] == c[i];
      }
    }
    if k == Zeros(16) {
      assert Xor(k, c) == c;
    }
  }

  // Feeding sixteen bits back leaves the fixed residue exactly when they are the
  // complement of the register, that is, the checksum the encoder transmits.
  lemma {:induction false} ResidueCharacterisesChecksum(r: Register, checksum: BitString)
    requires |checksum| == 16
    ensures FeedAll(r, checksum) == RESIDUE <==> checksum == Not(r)
  {
    hide Feed, FeedAll;
    var d := Xor(checksum, Ones(16));
    assert Xor(r, Zeros(16)) == r && Xor(d, Ones(16)) == checksum;
    FeedAllIsLinear(r, Zeros(16), d, Ones(16));
    FeedAllKernel(r, d);
    XorCancel(FeedAll(r, d), RESIDUE);
    assert d + Zeros(0) == d;
    assert d == r <==> checksum == Not(r) by {
      assert Not(d) == checksum && Xor(Not(r), Ones(16)) == r;
    }
  }

  // A non-zero error whose set bits lie within sixteen consecutive positions.
  predicate IsBurst(e: BitString, start: nat) {
    (exists i :: 0 <= i < |e| && e[i]) && (forall i :: 0 <= i < |e| && e[i] ==> start <= i < start + 16)
  }

  // An error goes unnoticed by the register exactly when it leaves the zero register at zero,
  // whatever the data and the starting value.
  lemma {:induction false} ErrorIsNoticedExactly(r: Register, bits: BitString, e: BitString)
    requires |bits| == |e|
    ensures FeedAll(r, Xor(bits, e)) == FeedAll(r, bits) <==> FeedAll(Zeros(16), e) == Zeros(16)
  {
    hide Feed, FeedAll;
    assert Xor(r, Zeros(16)) == r;
    FeedAllIsLinear(r, Zeros(16), bits, e);
    var m, was := FeedAll(Zeros(16), e), FeedAll(r, bits);
    assert Xor(was, m) == Xor(m, was);
    XorCancel(m, was);
  }

  lemma {:induction false} BurstMovesRegister(e: BitString, start: nat)
    requires IsBurst(e, start)
    ensures FeedAll(Zeros(16), e) != Zeros(16)
  {
    hide Feed;
    var stop := if start + 16 <= |e| then start + 16 else |e|;
    var window := e[start..stop];
    var i :| 0 <= i < |e| && e[i];
    assert window[i - start];
    assert e == Zeros(start) + (window + Zeros(|e| - stop));
    FeedAllAppend(Zeros(16), Zeros(start), window + Zeros(|e| - stop));
    ZerosKeepZero(start);
    FeedAllAppend(Zeros(16), window, Zeros(|e| - stop));
    FeedAllKernel(Zeros(16), window);
    assert (window + Zeros(16 - |window|))[i - start];
    ZerosKeepNonZero(FeedAll(Zeros(16), window), |e| - stop);
  }

  lemma {:induction false} BurstChangesRegister(r: Register, bits: BitString, e: BitString, start: nat)
    requires |bits| == |e| && IsBurst(e, start)
    ensures FeedAll(r, Xor(bits, e)) != FeedAll(r, bits)
  {
    ErrorIsNoticedExactly(r, bits, e);
    BurstMovesRegister(e, start);
  }

  // ---- Parity ----------------------------------------------------------------

  // An odd number of set bits.
  predicate Odd(bits: BitString) {
    bits != [] && bits[0] != Odd(bits[1..])
  }

  lemma {:induction false} OddXor(a: BitString, b: BitString)
    requires |a| == |b|
    ensures Odd(Xor(a, b)) == (Odd(a) != Odd(b))
  {
    if a != [] {
      assert Xor(a, b)[1..] == Xor(a[1..], b[1..]);
      OddXor(a[1..], b[1..]);
    }
  }

  lemma {:induction false} OddAppend(a: BitString, b: BitString)
    ensures Odd(a + b) == (Odd(a) != Odd(b))
  {
    if a == [] {
      assert a + b == b;
    } else {
      assert (a + b)[1..] == a[1..] + b;
      OddAppend(a[1..], b);
    }
  }

  lemma {:induction false} ZerosAreEven(n: nat)
    ensures !Odd(Zeros(n))
  {
    if n > 0 {
      assert Zeros(n)[1..] == Zeros(n - 1);
      ZerosAreEven(n - 1);
    }
  }

  // The generator below x^16, by register cell.
  function Taps(): Register {
    Zeros(3) + [true] + Zeros(6) + [true] + Zeros(4) + [true]
  }

  lemma {:induction false} TapsAreOdd()
    ensures Odd(Taps())
  {
    ZerosAreEven(3);
    ZerosAreEven(6);
    ZerosAreEven(4);
    assert Odd([true]) by {
      assert [true][1..] == [];
    }
    hide Odd;
    OddAppend(Zeros(3), [true]);
    OddAppend(Zeros(3) + [true], Zeros(6));
    OddAppend(Zeros(3) + [true] + Zeros(6), [true]);
    OddAppend(Zeros(3) + [true] + Zeros(6) + [true], Zeros(4));
    OddAppend(Zeros(3) + [true] + Zeros(6) + [true] + Zeros(4), [true]);
  }

  // One step changes the parity of the register by exactly the bit fed: what is shifted out
  // is made up for by the three taps.
  lemma {:induction false} FeedParity(r: Register, b: bool)
    ensures Odd(Feed(r, b)) == (Odd(r) != b)
  {
    var shifted := r[1..] + [false];
    var carry := r[0] != b;
    OddAppend(r[1..], [false]);
    assert !Odd([false]) by {
      assert [false][1..] == [];
    }
    TapsAreOdd();
    OddXor(shifted, Taps());
    assert Feed(r, b) == if carry then Xor(shifted, Taps()) else shifted;
  }

  lemma {:induction false} FeedAllParity(r: Register, bits: BitString)
    ensures Odd(FeedAll(r, bits)) == (Odd(r) != Odd(bits))
    decreases |bits|
  {
    if bits != [] {
      hide Feed;
      FeedParity(r, bits[0]);
      FeedAllParity(Feed(r, bits[0]), bits[1..]);
    }
  }

  // An error in an odd number of bits never leaves the register where it was.
  lemma {:induction false} OddErrorMovesRegister(e: BitString)
    requires Odd(e)
    ensures FeedAll(Zeros(16), e) != Zeros(16)
  {
    FeedAllParity(Zeros(16), e);
    ZerosAreEven(16);
  }

  // ---- The byte loops of the source ---------------------------------------

  // The C expression 1 << k in eight and in sixteen bits.
  function OneByte(k: nat): byte
    requires k < 8
  {
    1 << k
  }

  function OneWord(k: nat): word
    requires k < 16
  {
    1 << k
  }

  lemma {:induction false} ShiftByte(k: nat)
    requires k < 8
    ensures OneByte(k) == ByteMask(k)
  {
    if k == 0 {} else if k == 1 {} else if k == 2 {} else if k == 3 {}
    else if k == 4 {} else if k == 5 {} else if k == 6 {} else { assert k == 7; }
  }

  lemma {:induction false} TestOrByte(x: byte, m: byte, n: byte)
    requires IsByteMask(m) && IsByteMask(n)
    ensures TestByte(x | m, n) == (TestByte(x, n) || m == n)
  {
    if n == 1 {} else if n == 2 {} else if n == 4 {} else if n == 8 {}
    else if n == 16 {} else if n == 32 {} else if n == 64 {} else {}
  }

  lemma {:induction false} SetBit(x: byte, k: nat, j: nat)
    requires k < 8 && j < 8
    ensures ByteBit(x | ByteMask(k), j) <==> (ByteBit(x, j) || j == k)
  {
    hide TestByte;
    TestOrByte(x, ByteMask(k), ByteMask(j));
  }

  lemma {:induction false} ZeroByte()
    ensures forall k :: 0 <= k < 8 ==> !ByteBit(0, k)
  {
  }

  lemma {:induction false} ZeroWord()
    ensures forall i :: 0 <= i < 16 ==> !WordBit(0, i)
  {
  }

  method ReverseBits8(value: byte) returns (result: byte)
    ensures ByteBits(result) == Reverse(ByteBits(value))
  {
    hide TestByte, ByteMask, IsByteMask, OneByte;
    result := 0;
    ZeroByte();
    for bit := 0 to 8
      invariant forall k :: 0 <= k < 8 ==> ByteBit(result, k) == (k > 7 - bit && ByteBit(value, 7 - k))
    {
      ShiftByte(bit);
      ShiftByte(7 - bit);
      ghost var before := result;
      if TestByte(value, OneByte(bit)) {
        result := result | OneByte(7 - bit);
        forall k | 0 <= k < 8
          ensures ByteBit(result, k) == (ByteBit(before, k) || k == 7 - bit)
        {
          SetBit(before, 7 - bit, k);
        }
      }
    }
  }

  method ReverseBits16(value: word) returns (result: word)
    ensures WordCells(result) == Reverse(WordCells(value))
  {
    hide TestWord, WordMask, IsWordMask, OneWord, WordBit;
    result := 0;
    ZeroWord();
    for bit := 0 to 16
      invariant forall i :: 0 <= i < 16 ==> WordBit(result, i) == (i < bit && WordBit(value, 15 - i))
    {
      ShiftedTest(value, bit);
      ghost var before := result;
      if TestWord(value, OneWord(bit)) {
        var mask := OneWord(15 - bit);
        ShiftWord(15 - bit);
        result := result | mask;
        forall i | 0 <= i < 16
          ensures WordBit(result, i) == (WordBit(before, i) || i == bit)
        {
          SetCell(before, mask, bit, i);
        }
      }
    }
  }

  lemma {:induction false} ShiftedTest(w: word, k: nat)
    requires k < 16
    ensures TestWord(w, OneWord(k)) == WordBit(w, 15 - k)
  {
    hide TestWord, OneWord, WordMask;
    ShiftWord(k);
  }

  lemma {:induction false} ShiftWord(k: nat)
    requires k < 16
    ensures OneWord(k) == WordMask(15 - k)
  {
    if k == 0 {} else if k == 1 {} else if k == 2 {} else if k == 3 {}
    else if k == 4 {} else if k == 5 {} else if k == 6 {} else if k == 7 {}
    else if k == 8 {} else if k == 9 {} else if k == 10 {} else if k == 11 {}
    else if k == 12 {} else if k == 13 {} else if k == 14 {} else { assert k == 15; }
  }

  lemma {:induction false} TestOrWord(x: word, m: word, n: word)
    requires IsWordMask(m) && IsWordMask(n)
    ensures TestWord(x | m, n) == (TestWord(x, n) || m == n)
  {
    if n == 0x8000 {} else if n == 0x4000 {} else if n == 0x2000 {} else if n == 0x1000 {}
    else if n == 0x800 {} else if n == 0x400 {} else if n == 0x200 {} else if n == 0x100 {}
    else if n == 0x80 {} else if n == 0x40 {} else if n == 0x20 {} else if n == 0x10 {}
    else if n == 8 {} else if n == 4 {} else if n == 2 {} else {}
  }

  lemma {:induction false} SetCell(x: word, m: word, i: nat, j: nat)
    requires i < 16 && j < 16 && m == WordMask(i)
    ensures WordBit(x | m, j) <==> (WordBit(x, j) || j == i)
  {
    hide TestWord, WordMask, IsWordMask;
    TestOrWord(x, m, WordMask(j));
    WordMaskInjective(i, j);
  }

  lemma {:induction false} WordMaskInjective(i: nat, j: nat)
    requires i < 16 && j < 16
    ensures WordMask(i) == WordMask(j) ==> i == j
  {
  }

  // (uint32_t)b << 8, kept to the sixteen bits the register uses.
  function AtTop(b: byte): word {
    (b as word) << 8
  }

  // Adding a byte at the top of the register: bit 7 - i of the byte meets cell i.
  lemma {:induction false} AddByteAtTop(r: word, b: byte, i: nat)
    requires i < 16
    ensures WordBit(r ^ AtTop(b), i) == (WordBit(r, i) != (i < 8 && ByteBit(b, 7 - i)))
  {
    hide WordBit, ByteBit, AtTop, TestWord, TestByte, WordMask, ByteMask;
    TopByte(b, i);
    WordXor(r, AtTop(b), i);
  }

  lemma {:induction false} TestXorWord(a: word, b: word, m: word)
    requires IsWordMask(m)
    ensures TestWord(a ^ b, m) == (TestWord(a, m) != TestWord(b, m))
  {
    if HighMask(m) {
      TestXorHigh(a, b, m);
    } else {
      TestXorLow(a, b, m);
    }
  }

  predicate HighMask(m: word) {
    m == 0x8000 || m == 0x4000 || m == 0x2000 || m == 0x1000 || m == 0x800 || m == 0x400 || m == 0x200 || m == 0x100
  }

  lemma {:induction false} TestXorHigh(a: word, b: word, m: word)
    requires HighMask(m)
    ensures TestWord(a ^ b, m) == (TestWord(a, m) != TestWord(b, m))
  {
    if m == 0x8000 {} else if m == 0x4000 {} else if m == 0x2000 {} else if m == 0x1000 {}
    else if m == 0x800 {} else if m == 0x400 {} else if m == 0x200 {} else {}
  }

  lemma {:induction false} TestXorLow(a: word, b: word, m: word)
    requires IsWordMask(m) && !HighMask(m)
    ensures TestWord(a ^ b, m) == (TestWord(a, m) != TestWord(b, m))
  {
    if m == 0x80 {} else if m == 0x40 {} else if m == 0x20 {} else if m == 0x10 {}
    else if m == 8 {} else if m == 4 {} else if m == 2 {} else {}
  }

  lemma {:induction false} WordXor(a: word, b: word, i: nat)
    requires i < 16
    ensures WordBit(a ^ b, i) == (WordBit(a, i) != WordBit(b, i))
  {
    hide TestWord, WordMask, IsWordMask;
    TestXorWord(a, b, WordMask(i));
  }

  lemma {:induction false} TopByte(b: byte, i: nat)
    requires i < 16
    ensures WordBit(AtTop(b), i) == (i < 8 && ByteBit(b, 7 - i))
  {
    if i < 8 {
      TopCells(b, i);
    } else {
      BottomCells(b, i);
    }
  }

  lemma {:induction false} TopCells(b: byte, i: nat)
    requires i < 8
    ensures WordBit(AtTop(b), i) == ByteBit(b, 7 - i)
  {
    if i == 0 {} else if i == 1 {} else if i == 2 {} else if i == 3 {}
    else if i == 4 {} else if i == 5 {} else if i == 6 {} else { assert i == 7; }
  }

  lemma {:induction false} BottomCells(b: byte, i: nat)
    requires 8 <= i < 16
    ensures !WordBit(AtTop(b), i)
  {
    if i == 8 {} else if i == 9 {} else if i == 10 {} else if i == 11 {}
    else if i == 12 {} else if i == 13 {} else if i == 14 {} else { assert i == 15; }
  }

  lemma {:induction false} StepCell(r: word, i: nat)
    requires i < 16
    ensures WordBit(ShiftUp(r), i) == (i < 15 && WordBit(r, i + 1))
    ensures WordBit(POLYNOMIAL, i) == Tap(i)
  {
    if i == 0 {} else if i == 1 {} else if i == 2 {} else if i == 3 {}
    else if i == 4 {} else if i == 5 {} else if i == 6 {} else if i == 7 {}
    else if i == 8 {} else if i == 9 {} else if i == 10 {} else if i == 11 {}
    else if i == 12 {} else if i == 13 {} else if i == 14 {} else { assert i == 15; }
  }

  const POLYNOMIAL: word := 0x1021

  function ShiftUp(r: word): word {
    r << 1
  }

  // One iteration of the inner loop is one Feed of a zero bit.
  function Step(r: word): word {
    if TestWord(r, 0x8000) then XorWords(ShiftUp(r), POLYNOMIAL) else ShiftUp(r)
  }

  function XorWords(a: word, b: word): word {
    a ^ b
  }

  lemma {:induction false} XorWordsCell(a: word, b: word, i: nat)
    requires i < 16
    ensures WordBit(XorWords(a, b), i) == (WordBit(a, i) != WordBit(b, i))
  {
    hide WordBit;
    WordXor(a, b, i);
  }

  lemma {:induction false} PolynomialCell(r: word, i: nat)
    requires i < 16
    ensures WordBit(XorWords(r, POLYNOMIAL), i) == (WordBit(r, i) != Tap(i))
  {
    hide WordBit, XorWords, ShiftUp;
    StepCell(r, i);
    XorWordsCell(r, POLYNOMIAL, i);
  }

  lemma {:induction false} TopCell(r: word)
    ensures WordBit(r, 0) == TestWord(r, 0x8000)
  {
  }

  lemma {:induction false} StepIsFeed(r: word)
    ensures WordCells(Step(r)) == Feed(WordCells(r), false)
  {
    hide WordBit, ShiftUp, XorWords, TestWord;
    TopCell(r);
    forall i | 0 <= i < 16
      ensures WordCells(Step(r))[i] == Feed(WordCells(r), false)[i]
    {
      StepCell(r, i);
      PolynomialCell(ShiftUp(r), i);
    }
  }

  function TopBits(bits: BitString): (r: Register)
    requires |bits| <= 16
  {
    bits + Zeros(16 - |bits|)
  }

  // Adding up to eight bits at the top and then shifting is the same as feeding
  // them one by one.
  lemma {:induction false} BlockFeed(r: Register, bits: BitString)
    requires |bits| <= 16
    ensures FeedAll(Xor(r, TopBits(bits)), Zeros(|bits|)) == FeedAll(r, bits)
  {
    FeedAllIsLinear(Xor(r, TopBits(bits)), TopBits(bits), Zeros(|bits|), bits);
    assert Xor(Xor(r, TopBits(bits)), TopBits(bits)) == r;
    assert Xor(Zeros(|bits|), bits) == bits;
    FeedAllKernel(TopBits(bits), bits);
    var a := FeedAll(Xor(r, TopBits(bits)), Zeros(|bits|));
    assert Xor(a, Zeros(16)) == a;
  }

  method FeedByte(r: word, b: byte) returns (r': word)
    ensures WordCells(r') == FeedAll(WordCells(r), Reverse(ByteBits(b)))
  {
    hide WordBit, ByteBit, Feed, AtTop, Step;
    r' := r ^ AtTop(b);
    ghost var start := Xor(WordCells(r), TopBits(Reverse(ByteBits(b))));
    assert WordCells(r') == start by {
      forall i | 0 <= i < 16
        ensures WordCells(r')[i] == start[i]
      {
        AddByteAtTop(r, b, i);
      }
    }
    for bit := 0 to 8
      invariant WordCells(r') == FeedAll(start, Zeros(bit))
    {
      StepIsFeed(r');
      FeedAllAppend(start, Zeros(bit), [false]);
      assert Zeros(bit) + [false] == Zeros(bit + 1);
      assert FeedAll(WordCells(r'), [false]) == Feed(WordCells(r'), false);
      r' := Step(r');
    }
    BlockFeed(WordCells(r), Reverse(ByteBits(b)));
  }

  lemma {:induction false} SeedByte(seed: seq<byte>, i: nat)
    requires i < |seed|
    ensures FeedAll(Ones(16), Reverse(BitsOf(seed[i..])))
         == FeedAll(FeedAll(Ones(16), Reverse(BitsOf(seed[i + 1..]))), Reverse(ByteBits(seed[i])))
  {
    var rest := BitsOf(seed[i + 1..]);
    assert seed[i..][1..] == seed[i + 1..];
    assert Reverse(ByteBits(seed[i]) + rest) == Reverse(rest) + Reverse(ByteBits(seed[i]));
    FeedAllAppend(Ones(16), Reverse(rest), Reverse(ByteBits(seed[i])));
  }

  lemma {:induction false} DataByte(seed: seq<byte>, data: seq<byte>, j: nat)
    requires j < |data|
    ensures MessageRegister(seed, data[..j + 1]) == FeedAll(MessageRegister(seed, data[..j]), ByteBits(data[j]))
  {
    assert data[..j + 1] == data[..j] + [data[j]];
    BitsOfAppend(data[..j], [data[j]]);
    assert BitsOf([data[j]]) == ByteBits(data[j]);
    FeedAllAppend(SeedRegister(seed), BitsOf(data[..j]), ByteBits(data[j]));
  }

  lemma {:induction false} NothingFed(seed: seq<byte>, data: seq<byte>)
    ensures FeedAll(Ones(16), Reverse(BitsOf(seed[|seed|..]))) == Ones(16)
    ensures MessageRegister(seed, data[..0]) == SeedRegister(seed)
  {
    assert Reverse(BitsOf(seed[|seed|..])) == [];
  }

  // The checksum of a message, as the encoder computes it.
  method Crc16(seed: seq<byte>, data: seq<byte>) returns (crc: word)
    ensures WordCells(crc) == Reverse(Not(MessageRegister(seed, data)))
  {
    hide WordBit, ByteBit, Feed, FeedAll;
    var result := ALL_ONES;
    AllOnes();
    NothingFed(seed, data);
    var i := |seed|;
    while i > 0
      invariant 0 <= i <= |seed|
      invariant WordCells(result) == FeedAll(Ones(16), Reverse(BitsOf(seed[i..])))
    {
      i := i - 1;
      SeedByte(seed, i);
      result := FeedByte(result, seed[i]);
    }
    assert seed[0..] == seed;
    for j := 0 to |data|
      invariant WordCells(result) == MessageRegister(seed, data[..j])
    {
      var reversed := ReverseBits8(data[j]);
      assert Reverse(Reverse(ByteBits(data[j]))) == ByteBits(data[j]);
      DataByte(seed, data, j);
      result := FeedByte(result, reversed);
    }
    assert data[..|data|] == data;
    var bits := ReverseBits16(result);
    crc := bits ^ ALL_ONES;
    ComplementCells(bits);
    assert Not(Reverse(MessageRegister(seed, data))) == Reverse(Not(MessageRegister(seed, data)));
  }

  lemma {:induction false} ComplementCells(w: word)
    ensures WordCells(w ^ ALL_ONES) == Not(WordCells(w))
  {
    AllOnes();
    hide WordBit;
    forall i | 0 <= i < 16
      ensures WordCells(w ^ ALL_ONES)[i] == Not(WordCells(w))[i]
    {
      WordXor(w, ALL_ONES, i);
      assert WordCells(ALL_ONES)[i];
    }
  }

  const ALL_ONES: word := 0xFFFF

  lemma {:induction false} AllOnes()
    ensures WordCells(ALL_ONES) == Ones(16)
  {
    forall i | 0 <= i < 16
      ensures WordCells(ALL_ONES)[i]
    {
      var m := WordMask(i);
      assert ALL_ONES & m == m;
    }
  }
}
