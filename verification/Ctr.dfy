/** `Encrypted::partial_decrypt`: decrypting a slice from the middle of a fragment in counter mode.

    The block cipher is a parameter: `e(c, j)` is byte j of the encryption of the 16-byte
    counter block whose big-endian value is c. */
module Ctr {
  import opened Bytes
  import opened Llio
  import opened ManifestFields

  const TWO128: int := TWO64 * TWO64
  const BLOCK: nat := 16

  type Cipher = (nat, nat) -> bv8

  // ------------------------------------------------------------------
  // Counter mode
  // ------------------------------------------------------------------

  /** The reference, block by block (section 6.5 of NIST SP 800-38A, with the standard
      incrementing function of its Appendix B.1 on all 128 bits). */
  function DecryptBlocks(e: Cipher, counter: nat, data: seq<bv8>): seq<bv8>
    decreases |data|
  {
    if |data| <= BLOCK then XorBlock(e, counter, data)
    else XorBlock(e, counter, data[..BLOCK]) + DecryptBlocks(e, (counter + 1) % TWO128, data[BLOCK..])
  }

  function XorBlock(e: Cipher, counter: nat, data: seq<bv8>): (r: seq<bv8>)
    requires |data| <= BLOCK
    ensures |r| == |data|
  {
    seq(|data|, i requires 0 <= i < |data| => data[i] ^ e(counter, i))
  }

  // byte i of the key stream that starts at counter block `start`
  function KeyByte(e: Cipher, start: nat, i: nat): bv8 {
    e((start + i / BLOCK) % TWO128, i % BLOCK)
  }

  // data that stood at `offset` of a fragment whose first counter block is `start`
  function DecryptAt(e: Cipher, start: nat, data: seq<bv8>, offset: nat): (r: seq<bv8>)
    ensures |r| == |data|
  {
    seq(|data|, i requires 0 <= i < |data| => data[i] ^ KeyByte(e, start, offset + i))
  }

  lemma {:induction false} NextBlock(start: nat, i: nat)
    ensures (start + (i + BLOCK) / BLOCK) % TWO128 == ((start + 1) % TWO128 + i / BLOCK) % TWO128
    ensures (i + BLOCK) % BLOCK == i % BLOCK
  {
    assert (i + BLOCK) / BLOCK == i / BLOCK + 1;
  }

  lemma {:induction false} FirstBlock(e: Cipher, start: nat, data: seq<bv8>)
    requires start < TWO128 && |data| <= BLOCK
    ensures DecryptAt(e, start, data, 0) == XorBlock(e, start, data)
  {
    forall i | 0 <= i < |data|
      ensures DecryptAt(e, start, data, 0)[i] == XorBlock(e, start, data)[i]
    {
      assert KeyByte(e, start, 0 + i) == e(start, i);
    }
  }

  lemma {:induction false} LaterBlocks(e: Cipher, start: nat, data: seq<bv8>)
    ensures DecryptAt(e, start, data, BLOCK) == DecryptAt(e, (start + 1) % TWO128, data, 0)
  {
    forall i | 0 <= i < |data|
      ensures DecryptAt(e, start, data, BLOCK)[i] == DecryptAt(e, (start + 1) % TWO128, data, 0)[i]
    {
      NextBlock(start, i);
    }
  }

  lemma {:induction false} DecryptSplits(e: Cipher, start: nat, a: seq<bv8>, b: seq<bv8>, offset: nat)
    ensures DecryptAt(e, start, a + b, offset) == DecryptAt(e, start, a, offset) + DecryptAt(e, start, b, offset + |a|)
  {
    assert forall i :: 0 <= i < |b| ==> (a + b)[|a| + i] == b[i];
  }

  /** The key stream seen byte by byte decrypts as the blocks do. */
  lemma {:induction false} DecryptIsBlockwise(e: Cipher, start: nat, data: seq<bv8>)
    requires start < TWO128
    ensures DecryptAt(e, start, data, 0) == DecryptBlocks(e, start, data)
    decreases |data|
  {
    if |data| <= BLOCK {
      FirstBlock(e, start, data);
    } else {
      assert data == data[..BLOCK] + data[BLOCK..];
      DecryptSplits(e, start, data[..BLOCK], data[BLOCK..], 0);
      FirstBlock(e, start, data[..BLOCK]);
      LaterBlocks(e, start, data[BLOCK..]);
      DecryptIsBlockwise(e, (start + 1) % TWO128, data[BLOCK..]);
    }
  }

  /** Decrypting a slice at its offset is the slice of the whole decryption. */
  lemma {:induction false} SliceOfDecryption(e: Cipher, start: nat, fragment: seq<bv8>, offset: nat, len: nat)
    requires start < TWO128 && offset + len <= |fragment|
    ensures |DecryptBlocks(e, start, fragment)| == |fragment|
    ensures DecryptAt(e, start, fragment[offset..offset + len], offset)
         == DecryptBlocks(e, start, fragment)[offset..offset + len]
  {
    DecryptIsBlockwise(e, start, fragment);
  }

  // ------------------------------------------------------------------
  // The counter with an offset
  // ------------------------------------------------------------------

  // an int converted to uint64_t
  function AsUint64(x: int): int {
    x % TWO64
  }

  // the two halves after skipping blocks, with the carry the code computes
  function SkipBlocks(high: nat, low: nat, skip: nat): (nat, nat)
    requires low < TWO64
  {
    ((if TWO64 - 1 - low < skip then high + 1 else high) % TWO64, (low + skip) % TWO64)
  }

  /** The (high, low) pair with its carry is addition modulo 2^128. */
  lemma {:induction false} SkipIsAddition(high: nat, low: nat, skip: nat)
    requires high < TWO64 && low < TWO64 && skip < TWO64
    ensures var (h, l) := SkipBlocks(high, low, skip);
            h < TWO64 && l < TWO64 && h * TWO64 + l == (high * TWO64 + low + skip) % TWO128
  {
    var (h, l) := SkipBlocks(high, low, skip);
    var sum := high * TWO64 + low + skip;
    if low + skip < TWO64 {
      assert h * TWO64 + l == sum;
    } else if high + 1 < TWO64 {
      assert l == low + skip - TWO64;
      assert h * TWO64 + l == sum;
    } else {
      assert h == 0 && l == low + skip - TWO64;
      assert sum == TWO128 + l;
    }
  }

  lemma {:induction false} BigEndianConcat(a: seq<byte>, b: seq<byte>)
    ensures FromBigEndian(a + b) == FromBigEndian(a) * Pow256(|b|) + FromBigEndian(b)
    decreases |b|
  {
    if b == [] {
      assert a + b == a;
    } else {
      var b' := b[..|b| - 1];
      assert (a + b)[..|a + b| - 1] == a + b';
      BigEndianConcat(a, b');
      assert 256 * (FromBigEndian(a) * Pow256(|b'|)) == FromBigEndian(a) * Pow256(|b|) by {
        MulRotate(256, FromBigEndian(a), Pow256(|b'|));
      }
    }
  }

  lemma {:induction false} MulRotate(x: int, y: int, z: int)
    ensures x * (y * z) == y * (x * z)
  {
  }

  lemma {:induction false} Be64Value(v: nat)
    requires v < TWO64
    ensures |Be64To(v)| == 8 && FromBigEndian(Be64To(v)) == v
  {
    Widths();
    Swap64IsBigEndian(v);
    BigEndianRoundTrip(v, 8);
  }

  lemma {:induction false} HalvesValue(high: nat, low: nat)
    requires high < TWO64 && low < TWO64
    ensures FromBigEndian(Be64To(high) + Be64To(low)) == high * TWO64 + low
  {
    Be64Value(high);
    Be64Value(low);
    Widths();
    BigEndianConcat(Be64To(high), Be64To(low));
  }

  lemma {:induction false} HalfRead(ctr: seq<byte>, pos: nat)
    requires pos + 8 <= |ctr|
    ensures Be64From(ctr, pos).Ok? && Be64From(ctr, pos).value == FromBigEndian(ctr[pos..pos + 8]) < TWO64
  {
    SwapLoaded64(ctr[pos..pos + 8]);
    FromBigEndianBound(ctr[pos..pos + 8]);
    Widths();
  }

  // the value of a 16-byte counter block is that of its two halves
  lemma {:induction false} CounterHalves(ctr: seq<byte>)
    requires |ctr| == BLOCK
    ensures FromBigEndian(ctr) == FromBigEndian(ctr[..8]) * TWO64 + FromBigEndian(ctr[8..]) < TWO128
  {
    assert ctr == ctr[..8] + ctr[8..];
    Widths();
    BigEndianConcat(ctr[..8], ctr[8..]);
    FromBigEndianBound(ctr[..8]);
    FromBigEndianBound(ctr[8..]);
  }

  // ------------------------------------------------------------------
  // The cipher handle
  // ------------------------------------------------------------------

  // `used` bytes of the current key stream block are spent
  class CipherHandle {
    const e: Cipher
    var counter: nat
    var used: nat

    constructor (e: Cipher, counter: nat)
      ensures this.e == e && this.counter == counter && used == 0
    {
      this.e := e;
      this.counter := counter;
      used := 0;
    }

    // byte i of the key stream that starts at counter block `start` is next
    ghost predicate StandsAt(start: nat, i: nat)
      reads this
    {
      counter == (start + i / BLOCK) % TWO128 && used == i % BLOCK
    }

    method Next(ghost start: nat, ghost i: nat) returns (k: bv8)
      requires StandsAt(start, i)
      modifies this
      ensures StandsAt(start, i + 1) && k == KeyByte(e, start, i)
    {
      CounterGoesOn(start, i);
      k := e(counter, used);
      used := used + 1;
      if used == BLOCK {
        used := 0;
        counter := (counter + 1) % TWO128;
      }
    }

    // The key stream goes on where the previous call left it.
    method Decrypt(ghost start: nat, ghost pos: nat, buf: array<bv8>, lo: nat, len: nat)
      requires StandsAt(start, pos) && lo + len <= buf.Length
      modifies this, buf
      ensures StandsAt(start, pos + len)
      ensures buf[lo..lo + len] == DecryptAt(e, start, old(buf[lo..lo + len]), pos)
      ensures buf[..lo] == old(buf[..lo]) && buf[lo + len..] == old(buf[lo + len..])
    {
      hide KeyByte, StandsAt;
      var i := 0;
      while i < len
        invariant i <= len && StandsAt(start, pos + i)
        invariant forall j :: lo <= j < lo + i ==> buf[j] == old(buf[j]) ^ KeyByte(e, start, pos + (j - lo))
        invariant forall j :: 0 <= j < buf.Length && !(lo <= j < lo + i) ==> buf[j] == old(buf[j])
      {
        var k := Next(start, pos + i);
        buf[lo + i] := buf[lo + i] ^ k;
        i := i + 1;
      }
    }
  }

  lemma {:induction false} CounterGoesOn(start: nat, i: nat)
    ensures ((start + i / BLOCK) % TWO128 + (i % BLOCK + 1) / BLOCK) % TWO128 == (start + (i + 1) / BLOCK) % TWO128
    ensures (i % BLOCK + 1) % BLOCK == (i + 1) % BLOCK
  {
    assert (i + 1) / BLOCK == i / BLOCK + (i % BLOCK + 1) / BLOCK;
  }

  // ------------------------------------------------------------------
  // Decrypting a slice
  // ------------------------------------------------------------------

  // which call of the cipher library reports an error, if any; a failing decryption
  // may leave anything in the slice
  datatype Fault = NoFault | OpenFails | SetKeyFails | SetCtrFails | BurnFails | DecryptFails(junk: bv8)

  method Scribble(buf: array<bv8>, lo: nat, len: nat, junk: bv8)
    requires lo + len <= buf.Length
    modifies buf
    ensures buf[..lo] == old(buf[..lo]) && buf[lo + len..] == old(buf[lo + len..])
  {
    for i := 0 to len
      invariant forall j :: 0 <= j < buf.Length && !(lo <= j < lo + len) ==> buf[j] == old(buf[j])
    {
      buf[lo + i] := junk;
    }
  }

  lemma {:induction false} ReadHalves(ctr: seq<byte>)
    requires |ctr| == BLOCK
    ensures Be64From(ctr, 0).Ok? && Be64From(ctr, 0).value < TWO64
    ensures Be64From(ctr, 8).Ok? && Be64From(ctr, 8).value < TWO64
    ensures FromBigEndian(ctr) == Be64From(ctr, 0).value * TWO64 + Be64From(ctr, 8).value
  {
    HalfRead(ctr, 0);
    HalfRead(ctr, 8);
    CounterHalves(ctr);
    assert ctr[0..8] == ctr[..8] && ctr[8..16] == ctr[8..];
  }

  lemma {:induction false} WriteHalves(high: nat, low: nat, skip: nat)
    requires high < TWO64 && low < TWO64 && skip < TWO64
    ensures var (h, l) := SkipBlocks(high, low, skip);
            FromBigEndian(Be64To(h) + Be64To(l)) == (high * TWO64 + low + skip) % TWO128
  {
    SkipIsAddition(high, low, skip);
    HalvesValue(SkipBlocks(high, low, skip).0, SkipBlocks(high, low, skip).1);
  }

  // the counter block after skipping blocks, from and to its big-endian string
  method SeekCounter(ctr: seq<byte>, skip: nat) returns (counter: nat)
    requires |ctr| == BLOCK && skip < TWO64
    ensures counter == (FromBigEndian(ctr) + skip) % TWO128
  {
    ReadHalves(ctr);
    var high := Be64From(ctr, 0).value;
    var low := Be64From(ctr, 8).value;
    WriteHalves(high, low, skip);
    var halves := SkipBlocks(high, low, skip);
    counter := FromBigEndian(Be64To(halves.0) + Be64To(halves.1));
  }

  // The handle is positioned at the offset's block; the bytes before the offset in it are burnt.
  method Burn(hd: CipherHandle, ghost start: nat, offset: nat)
    requires hd.counter == (start + offset / BLOCK) % TWO128 && hd.used == 0
    modifies hd
    ensures hd.StandsAt(start, offset)
  {
    var toBurn := offset % BLOCK;
    assert hd.StandsAt(start, offset - toBurn);
    if toBurn > 0 {
      var burnBuf := new bv8[toBurn];
      hd.Decrypt(start, offset - toBurn, burnBuf, 0, toBurn);
    }
  }

  // no call of the library that is made for this offset fails
  predicate Faultless(fault: Fault, offset: int) {
    && !(fault.OpenFails? || fault.SetKeyFails? || fault.SetCtrFails? || fault.DecryptFails?)
    && !(fault.BurnFails? && AsUint64(offset) % BLOCK > 0)
  }

  /** Both numbers are ints that the library takes as 64-bit unsigned ones.  On success that many
      bytes are decrypted as if they stood at `offset` of the fragment, and nothing else is touched,
      also when a call of the library fails. */
  method PartialDecrypt(mode: Mode, e: Cipher, ctr: seq<byte>, offset: int, buf: array<bv8>, lo: nat, len: int,
                        fault: Fault)
    returns (ok: bool)
    requires |ctr| == BLOCK && lo + AsUint64(len) <= buf.Length
    modifies buf
    ensures ok <==> mode.Ctr? && Faultless(fault, offset)
    ensures var end := lo + AsUint64(len);
            && (ok ==> buf[lo..end] == DecryptAt(e, FromBigEndian(ctr), old(buf[lo..end]), AsUint64(offset)))
            && buf[..lo] == old(buf[..lo]) && buf[end..] == old(buf[end..])
  {
    if mode != Mode.Ctr {
      return false;
    }
    var counter := SeekCounter(ctr, AsUint64(offset) / BLOCK);
    if fault.OpenFails? || fault.SetKeyFails? || fault.SetCtrFails? {
      return false;
    }
    var hd := new CipherHandle(e, counter);
    if fault.BurnFails? && AsUint64(offset) % BLOCK > 0 {
      return false;
    }
    Burn(hd, FromBigEndian(ctr), AsUint64(offset));
    if fault.DecryptFails? {
      Scribble(buf, lo, AsUint64(len), fault.junk);
      return false;
    }
    hd.Decrypt(FromBigEndian(ctr), AsUint64(offset), buf, lo, AsUint64(len));
    return true;
  }

  // a uint32 passed as an int and taken as a 64-bit unsigned number
  function ThroughInt(x: nat): nat {
    AsUint64(AsInt32(x))
  }

  lemma {:induction false} ThroughIntIs(x: nat)
    requires x < TWO32
    ensures ThroughInt(x) == if x < TWO31 then x else x + TWO64 - TWO32
  {
  }

  /** For every offset and length that an int can hold, the decrypted slice is that slice of the
      fragment's whole decryption. */
  lemma {:induction false} PartialIsSliceOfWhole(e: Cipher, ctr: seq<byte>, fragment: seq<bv8>, offset: nat, len: nat)
    requires |ctr| == BLOCK && offset + len <= |fragment| && offset < TWO31 && len < TWO31
    ensures |DecryptBlocks(e, FromBigEndian(ctr), fragment)| == |fragment| && ThroughInt(len) == len
    ensures DecryptAt(e, FromBigEndian(ctr), fragment[offset..offset + len], ThroughInt(offset))
         == DecryptBlocks(e, FromBigEndian(ctr), fragment)[offset..offset + len]
  {
    ThroughIntIs(offset);
    ThroughIntIs(len);
    CounterHalves(ctr);
    SliceOfDecryption(e, FromBigEndian(ctr), fragment, offset, len);
  }

  // the block at which decryption starts, for an offset passed through an int
  function SoughtBlock(start: nat, offset: nat): nat {
    (start + ThroughInt(offset) / BLOCK) % TWO128
  }

  // the call decrypts as many bytes as it should, and with the right keystream
  ghost predicate DecryptsRight(start: nat, offset: nat, len: nat) {
    && ThroughInt(len) == len
    && forall e: Cipher, data: seq<bv8> :: |data| == len ==>
        DecryptAt(e, start, data, ThroughInt(offset)) == DecryptAt(e, start, data, offset)
  }

  lemma {:induction false} ModDiffers(a: nat, d: nat)
    requires 0 < d < TWO128
    ensures (a + d) % TWO128 != a % TWO128
  {
  }

  lemma {:induction false} SoughtBlockIsRightIffSmall(start: nat, offset: nat)
    requires start < TWO128 && offset < TWO32
    ensures SoughtBlock(start, offset) == (start + offset / BLOCK) % TWO128 <==> offset < TWO31
  {
    ThroughIntIs(offset);
    hide ThroughInt;
    if offset >= TWO31 {
      assert (offset + TWO64 - TWO32) / BLOCK == offset / BLOCK + (TWO64 - TWO32) / BLOCK;
      ModDiffers(start + offset / BLOCK, (TWO64 - TWO32) / BLOCK);
    }
  }

  // a cipher and data that tell the two blocks apart in their first byte
  lemma {:induction false} WrongBlockShows(start: nat, offset: nat, len: nat)
    requires start < TWO128 && TWO31 <= offset < TWO32 && len > 0
    ensures !DecryptsRight(start, offset, len)
  {
    SoughtBlockIsRightIffSmall(start, offset);
    var right := (start + offset / BLOCK) % TWO128;
    var e: Cipher := (c, j) => if c == right then 0 else 1;
    var data: seq<bv8> := seq(len, _ => 0);
    var u := ThroughInt(offset);
    hide ThroughInt;
    assert KeyByte(e, start, offset + 0) == 0 && KeyByte(e, start, u + 0) == 1;
    assert DecryptAt(e, start, data, offset)[0] == 0 && DecryptAt(e, start, data, u)[0] == 1;
  }

  /** Offset and length of a piece are uint32s, but the parameters are ints.  Whatever the cipher and
      the data, a piece is decrypted right if and only if both are below 2^31 or it is empty. */
  lemma {:induction false} DecryptsRightIffBothFitInt(start: nat, offset: nat, len: nat)
    requires start < TWO128 && offset < TWO32 && len < TWO32
    ensures DecryptsRight(start, offset, len) <==> len == 0 || (offset < TWO31 && len < TWO31)
  {
    ThroughIntIs(offset);
    ThroughIntIs(len);
    hide ThroughInt;
    if 0 < len < TWO31 && offset >= TWO31 {
      WrongBlockShows(start, offset, len);
    }
    if len == 0 {
      forall e: Cipher, data: seq<bv8> | |data| == len
        ensures DecryptAt(e, start, data, ThroughInt(offset)) == DecryptAt(e, start, data, offset)
      {
        assert DecryptAt(e, start, data, ThroughInt(offset)) == [] == DecryptAt(e, start, data, offset);
      }
    }
  }
}
