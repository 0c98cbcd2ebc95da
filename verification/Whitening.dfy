// The whitener of main/mkh_protocol.c. Its seven cells are the positions of the
// linear feedback shift register in the Bluetooth Core Specification, Vol 6,
// Part B, section 3.2 (polynomial x^7 + x^4 + 1).
module Whitening {
  import opened Bits
  import opened Crc

  datatype Lfsr = Lfsr(p0: bool, p1: bool, p2: bool, p3: bool, p4: bool, p5: bool, p6: bool)

  // Position 0 holds one, positions 1 to 6 the six-bit index, most significant
  // bit in position 1.
  function Seeded(index: byte): Lfsr {
    Lfsr(true, ByteBit(index, 5), ByteBit(index, 4), ByteBit(index, 3), ByteBit(index, 2), ByteBit(index, 1),
         ByteBit(index, 0))
  }

  // The bit of position 6 is the output; it re-enters at position 0 and is added
  // into position 4.
  function Shift(l: Lfsr): Lfsr {
    Lfsr(l.p6, l.p0, l.p1, l.p2, l.p3 != l.p6, l.p4, l.p5)
  }

  function After(l: Lfsr, n: nat): Lfsr {
    if n == 0 then l else Shift(After(l, n - 1))
  }

  function Keystream(l: Lfsr, phase: nat, n: nat): (s: BitString)
    ensures |s| == n
  {
    seq(n, i requires 0 <= i < n => After(l, phase + i).p6)
  }

  // Whitening of a bit string whose first bit meets the keystream at `phase`.
  function Whiten(l: Lfsr, phase: nat, bits: BitString): (s: BitString)
    ensures |s| == |bits|
  {
    Xor(bits, Keystream(l, phase, |bits|))
  }

  // ---- Laws ---------------------------------------------------------------

  // The keystream obeys the polynomial from every starting state.
  lemma {:induction false} KeystreamRecurrence(l: Lfsr, n: nat)
    ensures After(l, n + 7).p6 == (After(l, n).p6 != After(l, n + 4).p6)
  {
    var s := After(l, n);
    assert After(l, n + 1) == Shift(s);
    assert After(l, n + 2) == Shift(Shift(s));
    assert After(l, n + 3) == Shift(Shift(Shift(s)));
    assert After(l, n + 4) == Shift(Shift(Shift(Shift(s))));
    assert After(l, n + 5) == Shift(After(l, n + 4));
    assert After(l, n + 6) == Shift(After(l, n + 5));
  }

  lemma {:induction false} WhitenTwice(l: Lfsr, phase: nat, bits: BitString)
    ensures Whiten(l, phase, Whiten(l, phase, bits)) == bits
  {
  }

  lemma {:induction false} WhitenAppend(l: Lfsr, phase: nat, a: BitString, b: BitString)
    ensures Whiten(l, phase, a + b) == Whiten(l, phase, a) + Whiten(l, phase + |a|, b)
  {
    assert Keystream(l, phase, |a + b|) == Keystream(l, phase, |a|) + Keystream(l, phase + |a|, |b|);
  }

  // An error passes through whitening in place.
  lemma {:induction false} WhitenKeepsErrors(l: Lfsr, phase: nat, bits: BitString, e: BitString)
    requires |bits| == |e|
    ensures Whiten(l, phase, Xor(bits, e)) == Xor(Whiten(l, phase, bits), e)
  {
  }

  lemma {:induction false} AfterAdds(l: Lfsr, m: nat, n: nat)
    ensures After(After(l, m), n) == After(l, m + n)
  {
    if n > 0 {
      AfterAdds(l, m, n - 1);
    }
  }

  // ---- The loops of the source --------------------------------------------

  // The ctx array holds a register state. Its cells only ever hold 0 or 1 and are
  // modelled as booleans.
  predicate Holds(ctx: array<bool>, l: Lfsr)
    reads ctx
  {
    ctx.Length == 7
    && ctx[0] == l.p0 && ctx[1] == l.p1 && ctx[2] == l.p2 && ctx[3] == l.p3
    && ctx[4] == l.p4 && ctx[5] == l.p5 && ctx[6] == l.p6
  }

  // The C expressions (b >> k) & 1 and bit << k.
  function BitOf(b: byte, k: nat): bool
    requires k < 8
  {
    (b >> k) & 1 == 1
  }

  function Placed(c: bool, k: nat): byte
    requires k < 8
  {
    (if c then 1 else 0) << k
  }

  lemma {:induction false} BitAt(b: byte, k: nat)
    requires k < 8
    ensures BitOf(b, k) == ByteBit(b, k)
  {
    if k == 0 {} else if k == 1 {} else if k == 2 {} else if k == 3 {}
    else if k == 4 {} else if k == 5 {} else if k == 6 {} else { assert k == 7; }
  }

  lemma {:induction false} PlacedBit(c: bool, k: nat)
    requires k < 8
    ensures Placed(c, k) == if c then ByteMask(k) else 0
  {
    if k == 0 {} else if k == 1 {} else if k == 2 {} else if k == 3 {}
    else if k == 4 {} else if k == 5 {} else if k == 6 {} else { assert k == 7; }
  }

  method WhiteningInit(key: byte, ctx: array<bool>)
    requires ctx.Length == 7
    modifies ctx
    ensures Holds(ctx, Seeded(key))
  {
    hide ByteBit, BitOf;
    ctx[0] := true;
    for i := 0 to 6
      invariant ctx[0]
      invariant forall j {:trigger ctx[j]} :: 1 <= j <= i ==> ctx[j] == ByteBit(key, 6 - j)
    {
      BitAt(key, 5 - i);
      ctx[i + 1] := BitOf(key, 5 - i);
    }
  }

  method WhiteningStep(ctx: array<bool>, ghost l: Lfsr) returns (bit: bool)
    requires Holds(ctx, l)
    modifies ctx
    ensures Holds(ctx, Shift(l))
    ensures bit == l.p6
  {
    var c3, c6 := ctx[3], ctx[6];
    ctx[3] := ctx[2];
    ctx[2] := ctx[1];
    ctx[1] := ctx[0];
    ctx[0] := ctx[6];
    ctx[6] := ctx[5];
    ctx[5] := ctx[4];
    ctx[4] := c3 != c6;
    return ctx[0];
  }

  // One byte: its bits meet eight successive keystream bits.
  method WhitenByte(b: byte, ctx: array<bool>, ghost l: Lfsr) returns (out: byte)
    requires Holds(ctx, l)
    modifies ctx
    ensures Holds(ctx, After(l, 8))
    ensures ByteBits(out) == Whiten(l, 0, ByteBits(b))
  {
    out := 0;
    assert forall j :: 0 <= j < 8 ==> !ByteBit(out, j);
    hide ByteBit, Shift, BitOf, Placed, Holds;
    for bit := 0 to 8
      invariant Holds(ctx, After(l, bit))
      invariant forall j :: 0 <= j < 8 ==>
                              ByteBit(out, j) == (j < bit && (ByteBit(b, j) != After(l, j).p6))
    {
      var k := WhiteningStep(ctx, After(l, bit));
      ghost var before := out;
      out := out | Placed(k != BitOf(b, bit), bit);
      forall j | 0 <= j < 8
        ensures ByteBit(out, j) == (ByteBit(before, j) || (j == bit && (ByteBit(b, bit) != k)))
      {
        AddBit(before, b, k, bit, j);
      }
    }
  }

  lemma {:induction false} AddBit(out: byte, b: byte, k: bool, bit: nat, j: nat)
    requires bit < 8 && j < 8
    ensures ByteBit(out | Placed(k != BitOf(b, bit), bit), j)
        <==> (ByteBit(out, j) || (j == bit && (ByteBit(b, bit) != k)))
  {
    hide ByteBit, Placed, BitOf, ByteMask;
    BitAt(b, bit);
    PlacedBit(k != ByteBit(b, bit), bit);
    if k != ByteBit(b, bit) {
      SetBit(out, bit, j);
    } else {
      OrZero(out);
    }
  }

  lemma {:induction false} OrZero(out: byte)
    ensures out | 0 == out
  {
  }

  // whitening_encode: the slice [start, start + len) of buf is whitened, the rest
  // is left alone, and ctx moves on by eight steps a byte.
  method WhiteningEncode(buf: array<byte>, start: nat, len: nat, ctx: array<bool>, ghost l: Lfsr)
    requires buf as object != ctx as object && start + len <= buf.Length
    requires Holds(ctx, l)
    modifies buf, ctx
    ensures Holds(ctx, After(l, 8 * len))
    ensures BitsOf(buf[start..start + len]) == Whiten(l, 0, old(BitsOf(buf[start..start + len])))
    ensures buf[..start] == old(buf[..start])
    ensures buf[start + len..] == old(buf[start + len..])
  {
    hide Holds, After, ByteBits, Whiten;
    ghost var was := buf[..];
    NothingWhitened(l);
    assert buf[start..start + 0] == [];
    for i := 0 to len
      invariant Holds(ctx, After(l, 8 * i))
      invariant BitsOf(buf[start..start + i]) == Whiten(l, 0, BitsOf(was[start..start + i]))
      invariant buf[..start] == was[..start]
      invariant buf[start + i..] == was[start + i..]
    {
      var b := buf[start + i];
      assert b == was[start + i] by { assert b == buf[start + i..][0]; }
      ghost var done := buf[start..start + i];
      var out := WhitenByte(b, ctx, After(l, 8 * i));
      buf[start + i] := out;
      assert buf[start..start + i + 1] == done + [out];
      assert was[start..start + i + 1] == was[start..start + i] + [b];
      WhitenOneMore(l, was[start..start + i], b, done, out);
      assert After(After(l, 8 * i), 8) == After(l, 8 * (i + 1)) by { AfterAdds(l, 8 * i, 8); }
      assert buf[start + i + 1..] == buf[start + i..][1..] == was[start + i..][1..];
    }
    assert was[start..start + len] == old(buf[start..start + len]);
  }

  lemma {:induction false} NothingWhitened(l: Lfsr)
    ensures Whiten(l, 0, BitsOf([])) == BitsOf([])
    ensures After(l, 0) == l
  {
  }

  lemma {:induction false} WhitenOneMore(l: Lfsr, was: seq<byte>, b: byte, done: seq<byte>, out: byte)
    requires BitsOf(done) == Whiten(l, 0, BitsOf(was))
    requires ByteBits(out) == Whiten(After(l, 8 * |was|), 0, ByteBits(b))
    ensures BitsOf(done + [out]) == Whiten(l, 0, BitsOf(was + [b]))
  {
    hide ByteBit, Whiten;
    BitsOfAppend(done, [out]);
    BitsOfAppend(was, [b]);
    assert BitsOf([out]) == ByteBits(out) && BitsOf([b]) == ByteBits(b);
    WhitenAppend(l, 0, BitsOf(was), ByteBits(b));
    WhitenFrom(l, 8 * |was|, ByteBits(b));
  }

  lemma {:induction false} WhitenFrom(l: Lfsr, phase: nat, bits: BitString)
    ensures Whiten(After(l, phase), 0, bits) == Whiten(l, phase, bits)
  {
    forall i | 0 <= i < |bits|
      ensures Keystream(After(l, phase), 0, |bits|)[i] == Keystream(l, phase, |bits|)[i]
    {
      AfterAdds(l, phase, i);
    }
  }
}
