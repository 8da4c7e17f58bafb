/** Machine words as byte strings. */
module Bytes {
  type byte = x: int | 0 <= x < 256

  const TWO31: int := 0x8000_0000
  const TWO32: int := 0x1_0000_0000
  const TWO64: int := 0x1_0000_0000_0000_0000

  // a 32-bit value read as an int
  function AsInt32(d: int): int {
    var u := d % TWO32;
    if u < TWO31 then u else u - TWO32
  }

  function Pow256(n: nat): nat {
    if n == 0 then 1 else 256 * Pow256(n - 1)
  }

  // ------------------------------------------------------------------
  // Lowest byte first, and highest byte first
  // ------------------------------------------------------------------

  function LittleEndian(v: nat, n: nat): (bs: seq<byte>)
    ensures |bs| == n
  {
    if n == 0 then [] else [v % 256] + LittleEndian(v / 256, n - 1)
  }

  function FromLittleEndian(bs: seq<byte>): nat {
    if bs == [] then 0 else bs[0] + 256 * FromLittleEndian(bs[1..])
  }

  function BigEndian(v: nat, n: nat): (bs: seq<byte>)
    ensures |bs| == n
  {
    if n == 0 then [] else BigEndian(v / 256, n - 1) + [v % 256]
  }

  function FromBigEndian(bs: seq<byte>): nat {
    if bs == [] then 0 else 256 * FromBigEndian(bs[..|bs| - 1]) + bs[|bs| - 1]
  }

  lemma {:induction false} LittleEndianRoundTrip(v: nat, n: nat)
    requires v < Pow256(n)
    ensures FromLittleEndian(LittleEndian(v, n)) == v
  {
    if n > 0 {
      LittleEndianRoundTrip(v / 256, n - 1);
      assert LittleEndian(v, n)[1..] == LittleEndian(v / 256, n - 1);
    }
  }

  lemma {:induction false} FromLittleEndianBound(bs: seq<byte>)
    ensures FromLittleEndian(bs) < Pow256(|bs|)
  {
    if bs != [] {
      FromLittleEndianBound(bs[1..]);
    }
  }

  lemma {:induction false} LowByte(b: byte, r: nat)
    ensures (b + 256 * r) % 256 == b && (b + 256 * r) / 256 == r
  {
  }

  lemma {:induction false} LittleEndianStep(b: byte, r: nat, n: nat)
    ensures LittleEndian(b + 256 * r, n + 1) == [b] + LittleEndian(r, n)
  {
    LowByte(b, r);
  }

  lemma {:induction false} FromLittleEndianRoundTrip(bs: seq<byte>)
    ensures LittleEndian(FromLittleEndian(bs), |bs|) == bs
  {
    if bs != [] {
      FromLittleEndianRoundTrip(bs[1..]);
      LittleEndianStep(bs[0], FromLittleEndian(bs[1..]), |bs| - 1);
      hide LittleEndian;
      assert bs == [bs[0]] + bs[1..];
    }
  }

  lemma {:induction false} BigEndianRoundTrip(v: nat, n: nat)
    requires v < Pow256(n)
    ensures FromBigEndian(BigEndian(v, n)) == v
  {
    if n > 0 {
      BigEndianRoundTrip(v / 256, n - 1);
      assert BigEndian(v, n)[..n - 1] == BigEndian(v / 256, n - 1);
    }
  }

  lemma {:induction false} FromBigEndianBound(bs: seq<byte>)
    ensures FromBigEndian(bs) < Pow256(|bs|)
  {
    if bs != [] {
      FromBigEndianBound(bs[..|bs| - 1]);
    }
  }

  lemma {:induction false} Widths()
    ensures Pow256(0) == 1 && Pow256(1) == 256 && Pow256(4) == TWO32 && Pow256(8) == TWO64
  {
    assert Pow256(2) == 0x1_0000;
    assert Pow256(3) == 0x100_0000;
    assert Pow256(4) == TWO32;
    assert Pow256(5) == 0x100 * TWO32;
    assert Pow256(6) == 0x1_0000 * TWO32;
    assert Pow256(7) == 0x100_0000 * TWO32;
  }

  // ------------------------------------------------------------------
  // The byte swaps. Their masks select whole bytes that do not overlap, so each
  // "or" of fields is a sum.
  // ------------------------------------------------------------------

  // byte i of v, counted from the lowest
  function ByteOf(v: nat, i: nat): byte {
    if i == 0 then v % 256 else ByteOf(v / 256, i - 1)
  }

  function Swap32(v: nat): nat {
    ByteOf(v, 3) + ByteOf(v, 2) * 0x100 + ByteOf(v, 1) * 0x1_0000 + ByteOf(v, 0) * 0x100_0000
  }

  function Swap64(v: nat): nat {
    ByteOf(v, 7) + ByteOf(v, 6) * 0x100 + ByteOf(v, 5) * 0x1_0000 + ByteOf(v, 4) * 0x100_0000
    + ByteOf(v, 3) * TWO32 + ByteOf(v, 2) * (TWO32 * 0x100) + ByteOf(v, 1) * (TWO32 * 0x1_0000)
    + ByteOf(v, 0) * (TWO32 * 0x100_0000)
  }

  lemma {:induction false} LittleEndianAt(v: nat, n: nat, i: nat)
    requires i < n
    ensures LittleEndian(v, n)[i] == ByteOf(v, i)
  {
    if i > 0 {
      LittleEndianAt(v / 256, n - 1, i - 1);
    }
  }

  lemma {:induction false} BigEndianAt(v: nat, n: nat, i: nat)
    requires i < n
    ensures BigEndian(v, n)[n - 1 - i] == ByteOf(v, i)
  {
    if i > 0 {
      BigEndianAt(v / 256, n - 1, i - 1);
    }
  }

  lemma {:induction false} FromLittleEndian4(bs: seq<byte>)
    requires |bs| >= 4
    ensures FromLittleEndian(bs)
         == bs[0] + bs[1] * 0x100 + bs[2] * 0x1_0000 + bs[3] * 0x100_0000 + FromLittleEndian(bs[4..]) * TWO32
  {
    assert bs[1..][1..] == bs[2..] && bs[1..][0] == bs[1];
    assert bs[2..][1..] == bs[3..] && bs[2..][0] == bs[2];
    assert bs[3..][1..] == bs[4..] && bs[3..][0] == bs[3];
    assert FromLittleEndian(bs[1..]) == bs[1] + 256 * FromLittleEndian(bs[2..]);
    assert FromLittleEndian(bs[2..]) == bs[2] + 256 * FromLittleEndian(bs[3..]);
    assert FromLittleEndian(bs[3..]) == bs[3] + 256 * FromLittleEndian(bs[4..]);
  }

  lemma {:induction false} FromBigEndian4(bs: seq<byte>)
    requires |bs| >= 4
    ensures var n := |bs|;
      FromBigEndian(bs)
      == bs[n - 1] + bs[n - 2] * 0x100 + bs[n - 3] * 0x1_0000 + bs[n - 4] * 0x100_0000
         + FromBigEndian(bs[..n - 4]) * TWO32
  {
    var n := |bs|;
    assert bs[..n - 1][..n - 2] == bs[..n - 2] && bs[..n - 1][n - 2] == bs[n - 2];
    assert bs[..n - 2][..n - 3] == bs[..n - 3] && bs[..n - 2][n - 3] == bs[n - 3];
    assert bs[..n - 3][..n - 4] == bs[..n - 4] && bs[..n - 3][n - 4] == bs[n - 4];
    assert FromBigEndian(bs[..n - 1]) == 256 * FromBigEndian(bs[..n - 2]) + bs[n - 2];
    assert FromBigEndian(bs[..n - 2]) == 256 * FromBigEndian(bs[..n - 3]) + bs[n - 3];
    assert FromBigEndian(bs[..n - 3]) == 256 * FromBigEndian(bs[..n - 4]) + bs[n - 4];
  }

  /** The swapped word, stored lowest byte first, is the word stored highest byte first. */
  lemma {:induction false} Swap32IsBigEndian(v: nat)
    ensures LittleEndian(Swap32(v), 4) == BigEndian(v, 4)
  {
    var bs := BigEndian(v, 4);
    BigEndianAt(v, 4, 0);
    BigEndianAt(v, 4, 1);
    BigEndianAt(v, 4, 2);
    BigEndianAt(v, 4, 3);
    FromLittleEndian4(bs);
    assert FromLittleEndian(bs[4..]) == 0;
    FromLittleEndianRoundTrip(bs);
  }

  lemma {:induction false} BigEndianBytes8(v: nat)
    ensures var bs := BigEndian(v, 8);
      bs[0] == ByteOf(v, 7) && bs[1] == ByteOf(v, 6) && bs[2] == ByteOf(v, 5) && bs[3] == ByteOf(v, 4)
      && bs[4] == ByteOf(v, 3) && bs[5] == ByteOf(v, 2) && bs[6] == ByteOf(v, 1) && bs[7] == ByteOf(v, 0)
  {
    BigEndianAt(v, 8, 0);
    BigEndianAt(v, 8, 1);
    BigEndianAt(v, 8, 2);
    BigEndianAt(v, 8, 3);
    BigEndianAt(v, 8, 4);
    BigEndianAt(v, 8, 5);
    BigEndianAt(v, 8, 6);
    BigEndianAt(v, 8, 7);
  }

  lemma {:induction false} Swap64IsBigEndian(v: nat)
    ensures LittleEndian(Swap64(v), 8) == BigEndian(v, 8)
  {
    var bs := BigEndian(v, 8);
    BigEndianBytes8(v);
    FromLittleEndian4(bs);
    FromLittleEndian4(bs[4..]);
    assert FromLittleEndian(bs[4..][4..]) == 0;
    FromLittleEndianRoundTrip(bs);
  }

  lemma {:induction false} LittleEndianBytes8(v: nat)
    ensures var bs := LittleEndian(v, 8);
      bs[0] == ByteOf(v, 0) && bs[1] == ByteOf(v, 1) && bs[2] == ByteOf(v, 2) && bs[3] == ByteOf(v, 3)
      && bs[4] == ByteOf(v, 4) && bs[5] == ByteOf(v, 5) && bs[6] == ByteOf(v, 6) && bs[7] == ByteOf(v, 7)
  {
    LittleEndianAt(v, 8, 0);
    LittleEndianAt(v, 8, 1);
    LittleEndianAt(v, 8, 2);
    LittleEndianAt(v, 8, 3);
    LittleEndianAt(v, 8, 4);
    LittleEndianAt(v, 8, 5);
    LittleEndianAt(v, 8, 6);
    LittleEndianAt(v, 8, 7);
  }

  /** Swapping a word loaded lowest byte first gives the word read highest byte first. */
  lemma {:induction false} SwapLoaded64(bs: seq<byte>)
    requires |bs| == 8
    ensures Swap64(FromLittleEndian(bs)) == FromBigEndian(bs)
  {
    FromLittleEndianRoundTrip(bs);
    LittleEndianBytes8(FromLittleEndian(bs));
    FromBigEndian4(bs);
    FromBigEndian4(bs[..4]);
    assert FromBigEndian(bs[..4][..0]) == 0;
  }
}
