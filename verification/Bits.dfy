// Bytes and registers seen as bits. The encoder works on uint8_t and uint16_t
// with shifts and masks; its laws are about bit strings over GF(2). This module
// connects the two views one bit at a time.
module Bits {
  type byte = bv8
  type word = bv16

  // Bit strings. Bytes are transmitted least significant bit first.
  type BitString = seq<bool>

  // Bit k of a byte, selected by its mask: the value of (1 << k).
  function ByteMask(k: nat): (m: byte)
    requires k < 8
    ensures IsByteMask(m)
  {
    if k == 0 then 1 else if k == 1 then 2 else if k == 2 then 4 else if k == 3 then 8
    else if k == 4 then 16 else if k == 5 then 32 else if k == 6 then 64 else 128
  }

  predicate IsByteMask(m: byte) {
    m == 1 || m == 2 || m == 4 || m == 8 || m == 16 || m == 32 || m == 64 || m == 128
  }

  // The C test (b & m) as a condition.
  predicate TestByte(b: byte, m: byte) {
    b & m != 0
  }

  predicate TestWord(w: word, m: word) {
    w & m != 0
  }

  predicate ByteBit(b: byte, k: nat)
    requires k < 8
  {
    TestByte(b, ByteMask(k))
  }

  // Register cells are numbered from the top: cell 0 is x^15, cell 15 is x^0.
  function WordMask(i: nat): (m: word)
    requires i < 16
    ensures IsWordMask(m)
  {
    if i == 0 then 0x8000 else if i == 1 then 0x4000 else if i == 2 then 0x2000 else if i == 3 then 0x1000
    else if i == 4 then 0x800 else if i == 5 then 0x400 else if i == 6 then 0x200 else if i == 7 then 0x100
    else if i == 8 then 0x80 else if i == 9 then 0x40 else if i == 10 then 0x20 else if i == 11 then 0x10
    else if i == 12 then 8 else if i == 13 then 4 else if i == 14 then 2 else 1
  }

  predicate IsWordMask(m: word) {
    m == 0x8000 || m == 0x4000 || m == 0x2000 || m == 0x1000 || m == 0x800 || m == 0x400 || m == 0x200 || m == 0x100
    || m == 0x80 || m == 0x40 || m == 0x20 || m == 0x10 || m == 8 || m == 4 || m == 2 || m == 1
  }

  predicate WordBit(w: word, i: nat)
    requires i < 16
  {
    TestWord(w, WordMask(i))
  }

  function ByteBits(b: byte): (s: BitString)
    ensures |s| == 8
  {
    seq(8, k requires 0 <= k < 8 => ByteBit(b, k))
  }

  function WordCells(w: word): (s: BitString)
    ensures |s| == 16
  {
    seq(16, i requires 0 <= i < 16 => WordBit(w, i))
  }

  // The bits of a byte string in transmission order.
  function BitsOf(bytes: seq<byte>): (s: BitString)
    ensures |s| == 8 * |bytes|
  {
    if bytes == [] then [] else ByteBits(bytes[0]) + BitsOf(bytes[1..])
  }

  function Xor(a: BitString, b: BitString): (s: BitString)
    requires |a| == |b|
    ensures |s| == |a|
  {
    seq(|a|, i requires 0 <= i < |a| => a[i] != b[i])
  }

  function Zeros(n: nat): (s: BitString)
    ensures |s| == n
  {
    seq(n, _ => false)
  }

  function Ones(n: nat): (s: BitString)
    ensures |s| == n
  {
    seq(n, _ => true)
  }

  function Not(a: BitString): (s: BitString)
    ensures |s| == |a|
  {
    Xor(a, Ones(|a|))
  }

  function XorBytes(a: seq<byte>, b: seq<byte>): (s: seq<byte>)
    requires |a| == |b|
    ensures |s| == |a|
  {
    seq(|a|, i requires 0 <= i < |a| => a[i] ^ b[i])
  }

  // ---- Bytes ------------------------------------------------------------

  lemma {:induction false} TestXorByte(a: byte, b: byte, m: byte)
    requires IsByteMask(m)
    ensures TestByte(a ^ b, m) == (TestByte(a, m) != TestByte(b, m))
  {
    if m == 1 {} else if m == 2 {} else if m == 4 {} else if m == 8 {}
    else if m == 16 {} else if m == 32 {} else if m == 64 {} else {}
  }

  lemma {:induction false} ByteXor(a: byte, b: byte)
    ensures ByteBits(a ^ b) == Xor(ByteBits(a), ByteBits(b))
  {
    hide TestByte;
    forall k | 0 <= k < 8
      ensures ByteBits(a ^ b)[k] == Xor(ByteBits(a), ByteBits(b))[k]
    {
      TestXorByte(a, b, ByteMask(k));
    }
  }

  // A byte is determined by its eight bits.
  lemma {:induction false} ByteExtensionality(a: byte, b: byte)
    requires ByteBits(a) == ByteBits(b)
    ensures a == b
  {
    forall k | 0 <= k < 8
      ensures ByteBit(a, k) == ByteBit(b, k)
    {
      assert ByteBits(a)[k] == ByteBits(b)[k];
    }
    SameBits(a, b);
  }

  lemma {:induction false} SameBits(a: byte, b: byte)
    requires forall k :: 0 <= k < 8 ==> ByteBit(a, k) == ByteBit(b, k)
    ensures a == b
  {
    assert ByteBit(a, 0) == ByteBit(b, 0);
    assert ByteBit(a, 1) == ByteBit(b, 1);
    assert ByteBit(a, 2) == ByteBit(b, 2);
    assert ByteBit(a, 3) == ByteBit(b, 3);
    assert ByteBit(a, 4) == ByteBit(b, 4);
    assert ByteBit(a, 5) == ByteBit(b, 5);
    assert ByteBit(a, 6) == ByteBit(b, 6);
    assert ByteBit(a, 7) == ByteBit(b, 7);
  }

  // ---- Byte strings -----------------------------------------------------

  lemma {:induction false} BitsOfAppend(a: seq<byte>, b: seq<byte>)
    ensures BitsOf(a + b) == BitsOf(a) + BitsOf(b)
  {
    if a == [] {
      assert a + b == b;
    } else {
      assert (a + b)[1..] == a[1..] + b;
      BitsOfAppend(a[1..], b);
    }
  }

  lemma {:induction false} BitsOfInjective(a: seq<byte>, b: seq<byte>)
    requires BitsOf(a) == BitsOf(b)
    ensures a == b
  {
    assert |a| == |b|;
    if a != [] {
      assert BitsOf(a)[..8] == ByteBits(a[0]) && BitsOf(b)[..8] == ByteBits(b[0]);
      assert BitsOf(a)[8..] == BitsOf(a[1..]) && BitsOf(b)[8..] == BitsOf(b[1..]);
      ByteExtensionality(a[0], b[0]);
      BitsOfInjective(a[1..], b[1..]);
    }
  }

  lemma {:induction false} XorAppend(a: BitString, b: BitString, c: BitString, d: BitString)
    requires |a| == |b| && |c| == |d|
    ensures Xor(a + c, b + d) == Xor(a, b) + Xor(c, d)
  {
  }

  lemma {:induction false} BitsOfXor(a: seq<byte>, b: seq<byte>)
    requires |a| == |b|
    ensures BitsOf(XorBytes(a, b)) == Xor(BitsOf(a), BitsOf(b))
  {
    hide TestByte, ByteBits;
    if a != [] {
      assert XorBytes(a, b)[1..] == XorBytes(a[1..], b[1..]);
      assert XorBytes(a, b)[0] == a[0] ^ b[0];
      ByteXor(a[0], b[0]);
      BitsOfXor(a[1..], b[1..]);
      XorAppend(ByteBits(a[0]), ByteBits(b[0]), BitsOf(a[1..]), BitsOf(b[1..]));
    }
  }

  // ---- Packing ------------------------------------------------------------

  function MaskIf(c: bool, m: byte): byte {
    if c then m else 0
  }

  function Packed(c0: bool, c1: bool, c2: bool, c3: bool, c4: bool, c5: bool, c6: bool, c7: bool): byte {
    MaskIf(c0, 1) | MaskIf(c1, 2) | MaskIf(c2, 4) | MaskIf(c3, 8)
    | MaskIf(c4, 16) | MaskIf(c5, 32) | MaskIf(c6, 64) | MaskIf(c7, 128)
  }

  lemma {:induction false} PackedBits(c0: bool, c1: bool, c2: bool, c3: bool, c4: bool, c5: bool, c6: bool, c7: bool)
    ensures var b := Packed(c0, c1, c2, c3, c4, c5, c6, c7);
            TestByte(b, 1) == c0 && TestByte(b, 2) == c1 && TestByte(b, 4) == c2 && TestByte(b, 8) == c3
            && TestByte(b, 16) == c4 && TestByte(b, 32) == c5 && TestByte(b, 64) == c6 && TestByte(b, 128) == c7
  {
  }

  function PackByte(s: BitString): byte
    requires |s| == 8
  {
    Packed(s[0], s[1], s[2], s[3], s[4], s[5], s[6], s[7])
  }

  lemma {:induction false} PackByteBits(s: BitString)
    requires |s| == 8
    ensures ByteBits(PackByte(s)) == s
  {
    hide TestByte, Packed;
    PackedBits(s[0], s[1], s[2], s[3], s[4], s[5], s[6], s[7]);
    forall k | 0 <= k < 8
      ensures ByteBits(PackByte(s))[k] == s[k]
    {
      if k == 0 {} else if k == 1 {} else if k == 2 {} else if k == 3 {}
      else if k == 4 {} else if k == 5 {} else if k == 6 {} else { assert k == 7; }
    }
  }

  // The byte string with the given bits: the inverse of BitsOf.
  function BytesOf(s: BitString): (bytes: seq<byte>)
    requires |s| % 8 == 0
    ensures BitsOf(bytes) == s
    ensures |s| == 8 * |bytes|
  {
    if s == [] then [] else (PackByteBits(s[..8]); [PackByte(s[..8])] + BytesOf(s[8..]))
  }

  lemma {:induction false} BytesOfBits(bytes: seq<byte>)
    ensures BytesOf(BitsOf(bytes)) == bytes
  {
    hide BitsOf, BytesOf, TestByte;
    BitsOfInjective(BytesOf(BitsOf(bytes)), bytes);
  }
}
