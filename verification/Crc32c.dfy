/** CRC32C: the table-driven loop and the eight-bytes-at-a-time loop against
    bit-serial division by the Castagnoli polynomial (section 12.1 of RFC 3720). */
module Crc32c {
  import opened Sequences
  import opened Crc32cTable
  import opened Gf2Division
  import opened Word32

  type Octet = bv8

  // ------------------------------------------------------------------
  // The reference: one message bit at a time
  // ------------------------------------------------------------------

  // a byte is sent lowest bit first
  function ByteBits(b: Octet): seq<bool> {
    Digits(READER, b as bv32, 8)
  }

  function MessageBits(buf: seq<Octet>): seq<bool> {
    if buf == [] then [] else ByteBits(buf[0]) + MessageBits(buf[1..])
  }

  /** The register c after all bits of the buffer have passed through it. */
  function Crc(c: bv32, buf: seq<Octet>): bv32 {
    Divide(WORDS, c, MessageBits(buf))
  }

  lemma {:induction false} MessageBitsConcat(a: seq<Octet>, b: seq<Octet>)
    ensures MessageBits(a + b) == MessageBits(a) + MessageBits(b)
  {
    if a == [] {
      assert a + b == b;
    } else {
      assert (a + b)[0] == a[0] && (a + b)[1..] == a[1..] + b;
      hide ByteBits;
      MessageBitsConcat(a[1..], b);
      AppendAssociates(ByteBits(a[0]), MessageBits(a[1..]), MessageBits(b));
    }
  }

  /** The CRC of a concatenation is the second part run from the first part's state. */
  lemma {:induction false} CrcConcat(c: bv32, a: seq<Octet>, b: seq<Octet>)
    ensures Crc(c, a + b) == Crc(Crc(c, a), b)
  {
    MessageBitsConcat(a, b);
    DivideConcat(WORDS, c, MessageBits(a), MessageBits(b));
  }

  lemma {:induction false} OneByteBits(b: Octet)
    ensures MessageBits([b]) == ByteBits(b)
  {
    assert [b][1..] == [];
    AppendNothing(ByteBits(b));
  }

  // ------------------------------------------------------------------
  // The table form
  // ------------------------------------------------------------------

  function Widen(b: Octet): bv32 { b as bv32 }

  function LowByte(x: bv32): Octet { (x & 0xFF) as bv8 }

  function TableStep(c: bv32, b: Octet): bv32 {
    Xor(Crc32Table(LowByte(Xor(c, Widen(b)))), c >> 8)
  }

  lemma {:induction false} WidenLowByte(x: bv32)
    ensures Widen(LowByte(x)) == Low(x)
  {
  }

  lemma {:induction false} ByteEndsAfterEight(b: Octet)
    ensures Half4(Half4(Widen(b))) == 0
  {
  }

  lemma {:induction false} ByteEntersLowEnd(c: bv32, b: Octet)
    ensures Xor(c, Widen(b)) >> 8 == c >> 8
  {
  }

  lemma {:induction false} ByteHasEightDigits(b: Octet)
    ensures HalfTimes(READER, Widen(b), 8) == 0
  {
    Digits8(READER, Widen(b));
    ByteEndsAfterEight(b);
  }

  // The eight bits of b enter c by eight steps of their exclusive or.
  lemma {:induction false} BitsAreShifts(c: bv32, b: Octet)
    ensures Divide(WORDS, c, ByteBits(b)) == ShiftTimes(WORDS, Xor(c, Widen(b)), 8)
  {
    ByteHasEightDigits(b);
    WordsEvenAndPeel();
    WordsZero();
    DivideDigits(WORDS, c, Widen(b), 8);
  }

  /** One table lookup does the work of the byte's eight message bits. */
  lemma {:induction false} TableStepIsEightBits(c: bv32, b: Octet)
    ensures TableStep(c, b) == Divide(WORDS, c, ByteBits(b))
  {
    BitsAreShifts(c, b);
    EightShifts(Xor(c, Widen(b)));
    ByteEntersLowEnd(c, b);
    WidenLowByte(Xor(c, Widen(b)));
    TableIsShift8(LowByte(Xor(c, Widen(b))));
  }

  lemma {:induction false} CrcSnoc(c: bv32, buf: seq<Octet>, p: nat)
    requires p < |buf|
    ensures Crc(c, buf[..p + 1]) == Divide(WORDS, Crc(c, buf[..p]), ByteBits(buf[p]))
  {
    assert buf[..p + 1] == buf[..p] + [buf[p]];
    CrcConcat(c, buf[..p], [buf[p]]);
    OneByteBits(buf[p]);
  }

  /** The table-driven loop computes the bit-serial CRC. */
  method Crc32cSoft(crc: bv32, buffer: seq<Octet>) returns (r: bv32)
    ensures r == Crc(crc, buffer)
  {
    r := crc;
    var p := 0;
    while p < |buffer|
      invariant p <= |buffer|
      invariant r == Crc(crc, buffer[..p])
    {
      CrcSnoc(crc, buffer, p);
      TableStepIsEightBits(r, buffer[p]);
      r := TableStep(r, buffer[p]);
      p := p + 1;
    }
    assert buffer[..p] == buffer;
  }

  // ------------------------------------------------------------------
  // The forms that use the crc32b and crc32q instructions
  // ------------------------------------------------------------------

  // The instructions by their documented meaning: all bits of the operand pass
  // through the register, lowest first.
  function Crc32b(c: bv32, b: Octet): bv32 {
    Divide(WORDS, c, Digits(READER, Widen(b), 8))
  }

  function Crc32q(c: bv32, q: bv64): bv32 {
    Divide(WORDS, c, Digits(READER64, q, 64))
  }

  function Odd64(q: bv64): bool { q & 1 == 1 }
  function Half64(q: bv64): bv64 { q >> 1 }
  const READER64: Reader<bv64> := Reader(Odd64, Half64)

  // what a little-endian machine loads from eight bytes
  function Load(b: seq<Octet>): bv64
    requires |b| == 8
  {
    Pack(b[0], b[1], b[2], b[3], b[4], b[5], b[6], b[7])
  }

  function Pack(b0: Octet, b1: Octet, b2: Octet, b3: Octet, b4: Octet, b5: Octet, b6: Octet, b7: Octet): bv64 {
    (b0 as bv64) | (b1 as bv64 << 8) | (b2 as bv64 << 16) | (b3 as bv64 << 24)
    | (b4 as bv64 << 32) | (b5 as bv64 << 40) | (b6 as bv64 << 48) | (b7 as bv64 << 56)
  }

  function Low64(q: bv64): Octet { (q & 0xFF) as bv8 }

  function Half64x4(q: bv64): bv64 { Half64(Half64(Half64(Half64(q)))) }

  lemma {:induction false} PackedLow(b0: Octet, b1: Octet, b2: Octet, b3: Octet, b4: Octet, b5: Octet, b6: Octet,
                                     b7: Octet)
    ensures var q := Pack(b0, b1, b2, b3, b4, b5, b6, b7);
      Low64(q) == b0 && Low64(Drop64(q)) == b1
      && Low64(Drop64(Drop64(q))) == b2 && Low64(Drop64(Drop64(Drop64(q)))) == b3
  {
  }

  lemma {:induction false} PackedHigh(b0: Octet, b1: Octet, b2: Octet, b3: Octet, b4: Octet, b5: Octet, b6: Octet,
                                      b7: Octet)
    ensures var q4 := Drop64(Drop64(Drop64(Drop64(Pack(b0, b1, b2, b3, b4, b5, b6, b7)))));
      Low64(q4) == b4 && Low64(Drop64(q4)) == b5
      && Low64(Drop64(Drop64(q4))) == b6 && Low64(Drop64(Drop64(Drop64(q4)))) == b7
  {
  }

  lemma {:induction false} Half64x8(q: bv64)
    ensures Half64x4(Half64x4(q)) == q >> 8
  {
  }

  lemma {:induction false} SameLowDigits(q: bv64)
    ensures Odd64(q) == Odd(Widen(Low64(q))) && Odd64(Half64(q)) == Odd(Half(Widen(Low64(q))))
    ensures Odd64(Half64(Half64(q))) == Odd(Half(Half(Widen(Low64(q)))))
    ensures Odd64(Half64(Half64(Half64(q)))) == Odd(Half(Half(Half(Widen(Low64(q))))))
  {
  }

  lemma {:induction false} SameHighDigits(q: bv64)
    ensures Odd64(Half64x4(q)) == Odd(Half4(Widen(Low64(q))))
    ensures Odd64(Half64(Half64x4(q))) == Odd(Half(Half4(Widen(Low64(q)))))
    ensures Odd64(Half64(Half64(Half64x4(q)))) == Odd(Half(Half(Half4(Widen(Low64(q))))))
    ensures Odd64(Half64(Half64(Half64(Half64x4(q))))) == Odd(Half(Half(Half(Half4(Widen(Low64(q)))))))
  {
  }

  lemma {:induction false} LowestByte(q: bv64)
    ensures Digits(READER64, q, 8) == ByteBits(Low64(q))
    ensures HalfTimes(READER64, q, 8) == q >> 8
  {
    Digits8(READER64, q);
    Digits8(READER, Widen(Low64(q)));
    SameLowDigits(q);
    SameHighDigits(q);
    Half64x8(q);
  }

  function Drop64(q: bv64): bv64 { q >> 8 }

  // the n lowest bytes of q pass through the register
  function EatWord(c: bv32, q: bv64, n: nat): bv32 {
    Divide(WORDS, c, Digits(READER64, q, 8 * n))
  }

  lemma {:induction false} EatWordByteFirst(c: bv32, q: bv64, n: nat)
    ensures EatWord(c, q, n + 1) == EatWord(Divide(WORDS, c, ByteBits(Low64(q))), Drop64(q), n)
  {
    DigitsConcat(READER64, q, 8, 8 * n);
    LowestByte(q);
    DivideConcat(WORDS, c, ByteBits(Low64(q)), Digits(READER64, Drop64(q), 8 * n));
  }

  lemma {:induction false} CrcByteFirst(c: bv32, b: seq<Octet>)
    requires b != []
    ensures Crc(c, b) == Crc(Divide(WORDS, c, ByteBits(b[0])), b[1..])
  {
    DivideConcat(WORDS, c, ByteBits(b[0]), MessageBits(b[1..]));
  }

  // the bytes of q from the lowest up are those of b
  predicate HoldsBytes<Q>(low: Q -> Octet, drop: Q -> Q, q: Q, b: seq<Octet>)
    decreases |b|
  {
    b == [] || (low(q) == b[0] && HoldsBytes(low, drop, drop(q), b[1..]))
  }

  lemma {:induction false} HoldsFour<Q>(low: Q -> Octet, drop: Q -> Q, q: Q, b: seq<Octet>)
    requires |b| >= 4
    requires low(q) == b[0] && low(drop(q)) == b[1] && low(drop(drop(q))) == b[2] && low(drop(drop(drop(q)))) == b[3]
    requires HoldsBytes(low, drop, drop(drop(drop(drop(q)))), b[4..])
    ensures HoldsBytes(low, drop, q, b)
  {
    assert b[3..][0] == b[3] && b[3..][1..] == b[4..];
    assert HoldsBytes(low, drop, drop(drop(drop(q))), b[3..]);
    assert b[2..][0] == b[2] && b[2..][1..] == b[3..];
    assert HoldsBytes(low, drop, drop(drop(q)), b[2..]);
    assert b[1..][0] == b[1] && b[1..][1..] == b[2..];
    assert HoldsBytes(low, drop, drop(q), b[1..]);
  }

  lemma {:induction false} HoldsEight<Q>(low: Q -> Octet, drop: Q -> Q, q: Q, b: seq<Octet>, q4: Q)
    requires |b| == 8 && q4 == drop(drop(drop(drop(q))))
    requires low(q) == b[0] && low(drop(q)) == b[1] && low(drop(drop(q))) == b[2] && low(drop(drop(drop(q)))) == b[3]
    requires low(q4) == b[4] && low(drop(q4)) == b[5] && low(drop(drop(q4))) == b[6]
             && low(drop(drop(drop(q4)))) == b[7]
    ensures HoldsBytes(low, drop, q, b)
  {
    assert b[4..][4..] == [];
    HoldsFour(low, drop, q4, b[4..]);
    HoldsFour(low, drop, q, b);
  }

  /** A little-endian load holds the eight bytes in message order from the lowest up. */
  lemma {:induction false} LoadHolds(b: seq<Octet>)
    requires |b| == 8
    ensures HoldsBytes(Low64, Drop64, Load(b), b)
  {
    PackedLow(b[0], b[1], b[2], b[3], b[4], b[5], b[6], b[7]);
    PackedHigh(b[0], b[1], b[2], b[3], b[4], b[5], b[6], b[7]);
    HoldsEight(Low64, Drop64, Load(b), b, Drop64(Drop64(Drop64(Drop64(Load(b))))));
  }

  lemma {:induction false} EatHeldBytes(c: bv32, q: bv64, b: seq<Octet>)
    requires HoldsBytes(Low64, Drop64, q, b)
    ensures EatWord(c, q, |b|) == Crc(c, b)
    decreases |b|
  {
    if b != [] {
      EatWordByteFirst(c, q, |b| - 1);
      CrcByteFirst(c, b);
      EatHeldBytes(Divide(WORDS, c, ByteBits(b[0])), Drop64(q), b[1..]);
    }
  }

  /** One crc32q does the work of the eight bytes it was loaded from. */
  lemma {:induction false} EightBytesAtOnce(c: bv32, b: seq<Octet>)
    requires |b| == 8
    ensures Crc32q(c, Load(b)) == Crc(c, b)
  {
    LoadHolds(b);
    EatHeldBytes(c, Load(b), b);
  }

  lemma {:induction false} CrcSnocEight(c: bv32, buf: seq<Octet>, p: nat)
    requires p + 8 <= |buf|
    ensures Crc(c, buf[..p + 8]) == Crc32q(Crc(c, buf[..p]), Load(buf[p..p + 8]))
  {
    assert buf[..p + 8] == buf[..p] + buf[p..p + 8];
    CrcConcat(c, buf[..p], buf[p..p + 8]);
    EightBytesAtOnce(Crc(c, buf[..p]), buf[p..p + 8]);
  }

  lemma {:induction false} CrcRest(c: bv32, buf: seq<Octet>, p: nat)
    requires p <= |buf|
    ensures Crc(c, buf) == Crc(Crc(c, buf[..p]), buf[p..])
    ensures p == |buf| ==> Crc(c, buf) == Crc(c, buf[..p])
  {
    assert buf == buf[..p] + buf[p..];
    CrcConcat(c, buf[..p], buf[p..]);
    if p == |buf| {
      assert buf[..p] == buf;
    }
  }

  method Crc32cSse42Byte(crc: bv32, buf: seq<Octet>) returns (r: bv32)
    ensures r == Crc(crc, buf)
  {
    r := crc;
    var p := 0;
    while p < |buf|
      invariant p <= |buf|
      invariant r == Crc(crc, buf[..p])
    {
      CrcSnoc(crc, buf, p);
      r := Crc32b(r, buf[p]);
      p := p + 1;
    }
    assert buf[..p] == buf;
  }

  /** Eight bytes at a time, then the rest one by one: the same value. */
  method Crc32cSse42(crc: bv32, buf: seq<Octet>) returns (r: bv32)
    ensures r == Crc(crc, buf)
  {
    var q := |buf| / 8;
    var rem := |buf| % 8;
    var qb := 0;
    r := crc;
    while q > 0
      invariant q >= 0 && qb + 8 * q + rem == |buf|
      invariant r == Crc(crc, buf[..qb])
    {
      CrcSnocEight(crc, buf, qb);
      r := Crc32q(r, Load(buf[qb..qb + 8]));
      qb := qb + 8;
      q := q - 1;
    }
    CrcRest(crc, buf, qb);
    if rem > 0 {
      r := Crc32cSse42Byte(r, buf[qb..]);
    }
  }

  /** Whichever form the processor allows, callers that feed a string in two parts
      and callers that feed it whole get the same checksum. */
  method Crc32cString(haveSse42: bool, crc: bv32, s: seq<Octet>, offset: nat, length: nat, final: bool)
    returns (r: bv32)
    requires offset + length <= |s|
    ensures r == if final then Crc(crc, s[offset..offset + length]) ^ 0xFFFF_FFFF
            else Crc(crc, s[offset..offset + length])
  {
    if haveSse42 {
      r := Crc32cSse42(crc, s[offset..offset + length]);
    } else {
      r := Crc32cSoft(crc, s[offset..offset + length]);
    }
    if final {
      r := r ^ 0xFFFF_FFFF;
    }
  }
}
