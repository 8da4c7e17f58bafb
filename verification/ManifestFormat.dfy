/** The bytes of a serialised manifest, written down field by field and tag by tag, and that they
    are what the readers and writers of the other modules agree on. */
module ManifestFormat {
  import opened Sequences
  import opened Bytes
  import opened Llio
  import opened ManifestFields
  import opened FragmentCodec
  import opened ManifestBody

  // ------------------------------------------------------------------
  // Words, strings, lists
  // ------------------------------------------------------------------

  // n bytes, the lowest first
  function Word(v: nat, n: nat): seq<byte> {
    seq(n, i requires 0 <= i < n => ByteOf(v, i))
  }

  // the length, then the bytes
  function Text(s: seq<byte>): seq<byte> {
    Word(|s|, 4) + s
  }

  // the last element first
  function LastFirst(xs: seq<seq<byte>>): seq<byte> {
    if xs == [] then [] else xs[|xs| - 1] + LastFirst(xs[..|xs| - 1])
  }

  function List(xs: seq<seq<byte>>): seq<byte> {
    Word(|xs|, 4) + LastFirst(xs)
  }

  lemma {:induction false} WordBytes(v: nat, n: nat)
    ensures LittleEndian(v, n) == Word(v, n)
  {
    forall i | 0 <= i < n
      ensures LittleEndian(v, n)[i] == Word(v, n)[i]
    {
      LittleEndianAt(v, n, i);
    }
  }

  lemma {:induction false} TextBytes(s: seq<byte>)
    requires |s| < TWO32
    ensures StringTo(s) == Text(s)
  {
    WordBytes(|s|, 4);
    assert s[..|s|] == s;
  }

  lemma {:induction false} ItemBytes<T>(enc: T -> seq<byte>, ts: seq<T>, xs: seq<seq<byte>>)
    requires |xs| == |ts| && forall i :: 0 <= i < |ts| ==> enc(ts[i]) == xs[i]
    ensures ItemsTo(enc, ts) == LastFirst(xs)
    decreases |ts|
  {
    if ts != [] {
      ItemBytes(enc, ts[..|ts| - 1], xs[..|ts| - 1]);
    }
  }

  lemma {:induction false} ListBytes<T>(enc: T -> seq<byte>, ts: seq<T>, xs: seq<seq<byte>>)
    requires |xs| == |ts| < TWO32 && forall i :: 0 <= i < |ts| ==> enc(ts[i]) == xs[i]
    ensures VectorTo(enc, ts) == List(xs)
  {
    assert |ts| % TWO32 == |ts|;
    assert VectorTo(enc, ts) == LittleEndian(|ts|, 4) + ItemsTo(enc, ts);
    assert List(xs) == Word(|xs|, 4) + LastFirst(xs);
    hide *;
    ItemBytes(enc, ts, xs);
    WordBytes(|ts|, 4);
  }

  // digit i of j to the base 128, counted from the lowest
  function Digit(j: nat, i: nat): nat {
    if i == 0 then j % 0x80 else Digit(j / 0x80, i - 1)
  }

  lemma {:induction false} VarintLength(j: nat)
    ensures var n := |VarintTo(j)|; n >= 1 && (n > 1 ==> j >= Pow128(n - 1)) && j < Pow128(n)
    decreases j
  {
    if j >= 0x80 {
      var n := |VarintTo(j / 0x80)|;
      VarintLength(j / 0x80);
      assert Pow128(n + 1) == 0x80 * Pow128(n);
      assert n > 1 ==> Pow128(n) == 0x80 * Pow128(n - 1);
    }
  }

  /** A varint is the number's digits to the base 128, the lowest first, with no zeros at the end;
      all bytes but the last have their high bit set. */
  lemma {:induction false} VarintBytes(j: nat, i: nat)
    requires i < |VarintTo(j)|
    ensures VarintTo(j)[i] == Digit(j, i) + if i < |VarintTo(j)| - 1 then 0x80 else 0
    ensures var n := |VarintTo(j)|; (n > 1 ==> j >= Pow128(n - 1)) && j < Pow128(n)
    decreases i
  {
    VarintLength(j);
    hide Pow128;
    if i > 0 {
      VarintBytes(j / 0x80, i - 1);
    }
  }

  // ------------------------------------------------------------------
  // The fields
  // ------------------------------------------------------------------

  function SumBytes(c: Checksum): seq<byte> {
    match c
    case NoChecksum => [1]
    case Sha1(digest) => [2] + Text(digest)
    case Crc32cOf(v) => [3] + Word(v, 4)
  }

  function CompressionByte(c: Compression): byte {
    match c
    case NoCompression => 1
    case Snappy => 2
    case BZip2 => 3
    case TestCompression => 4
  }

  // AES, the mode, 256 bits, a SHA-256 key id
  function CipherBytes(e: EncryptInfo): seq<byte> {
    match e
    case NoEncryption => [1]
    case Encrypted(mode, keyId) => [2, 1, if mode == Cbc then 1 else 2, 1, 1] + Text(keyId)
  }

  function SchemeBytes(s: EncodingScheme): seq<byte> {
    [1] + (Word(s.k, 4) + (Word(s.m, 4) + [s.w]))
  }

  // four bytes, or the largest int32 and eight more
  function OsdBytes(i: nat): seq<byte> {
    if i < 0x7FFF_FFFF then Word(i, 4) else Word(0x7FFF_FFFF, 4) + Word(i, 8)
  }

  function LocationBytes(loc: (Option<nat>, nat)): seq<byte> {
    (match loc.0 case None => [0] case Some(i) => [1] + OsdBytes(i)) + Word(loc.1, 4)
  }

  function MaybeBytes(o: Option<seq<byte>>): seq<byte> {
    match o
    case None => [0]
    case Some(s) => [1] + (VarintTo(|s|) + s)
  }

  // the counter, then the name, as far as the writer knew them
  function TailBytes(f: Fragment, t: Tail): seq<byte> {
    match t
    case Old => []
    case WithCtr => MaybeBytes(f.ctr)
    case Current => MaybeBytes(f.ctr) + MaybeBytes(f.fnr)
    case Longer(extra) => MaybeBytes(f.ctr) + (MaybeBytes(f.fnr) + extra)
  }

  // version, location, checksum, length
  function HeadBytes(f: Fragment): seq<byte> {
    [1] + (LocationBytes(f.loc) + (SumBytes(f.crc) + Word(f.len, 4)))
  }

  function FragmentBytes(f: Fragment, t: Tail): seq<byte> {
    var payload := HeadBytes(f) + TailBytes(f, t);
    VarintTo(|payload|) + payload
  }

  function ChunkBytes(fs: seq<Fragment>, t: Tail): seq<byte> {
    List(seq(|fs|, i requires 0 <= i < |fs| => FragmentBytes(fs[i], t)))
  }

  function LayoutBytes(fs: seq<seq<Fragment>>, t: Tail): seq<byte> {
    List(seq(|fs|, c requires 0 <= c < |fs| => ChunkBytes(fs[c], t)))
  }

  function SizesBytes(sizes: seq<nat>): seq<byte> {
    List(seq(|sizes|, i requires 0 <= i < |sizes| => Word(sizes[i], 4)))
  }

  // name, object id, chunk sizes; version, scheme, compression; encryption, checksum, size; layout tag, fragments
  function BodyBytes(m: Manifest, t: Tail): seq<byte> {
    (Text(m.name) + (Text(m.objectId) + SizesBytes(m.chunkSizes)))
    + (([1] + (SchemeBytes(m.scheme) + [CompressionByte(m.compression)]))
       + ((CipherBytes(m.encryptInfo) + (SumBytes(m.checksum) + Word(m.size, 8)))
          + ([1] + LayoutBytes(m.fragments, t))))
  }

  lemma {:induction false} ChecksumBytes(c: Checksum)
    requires ChecksumFits(c)
    ensures ChecksumTo(c) == SumBytes(c)
  {
    match c
    case NoChecksum =>
    case Sha1(digest) => TextBytes(digest);
    case Crc32cOf(v) => WordBytes(v, 4);
  }

  lemma {:induction false} EncryptionBytes(e: EncryptInfo)
    requires e.Encrypted? ==> |e.keyId| == 32
    ensures EncryptTo(e) == CipherBytes(e)
  {
    if e.Encrypted? {
      TextBytes(e.keyId);
      var mode, text := if e.mode == Cbc then 1 else 2, Text(e.keyId);
      assert CipherCodec().enc(((), (e.mode, ((), e.keyId)))) == [1] + ([mode] + ([1] + ([1] + text)));
      assert [2] + ([1] + ([mode] + ([1] + ([1] + text)))) == [2, 1, mode, 1, 1] + text;
    }
  }

  lemma {:induction false} CodingSchemeBytes(s: EncodingScheme)
    ensures SchemeCodec().enc(((), (s.k, (s.m, s.w)))) == SchemeBytes(s)
  {
    WordBytes(s.k, 4);
    WordBytes(s.m, 4);
  }

  lemma {:induction false} LocBytes(loc: (Option<nat>, nat))
    ensures LocCodec().enc(loc) == LocationBytes(loc)
  {
    WordBytes(loc.1, 4);
    if loc.0.Some? {
      WordBytes(loc.0.value, 4);
      WordBytes(loc.0.value, 8);
      WordBytes(0x7FFF_FFFF, 4);
    }
  }

  lemma {:induction false} RecordBytes(f: Fragment, t: Tail)
    requires Writable(f, t)
    ensures FragmentTo(f, t) == FragmentBytes(f, t)
  {
    LocBytes(f.loc);
    ChecksumBytes(f.crc);
    WordBytes(f.len, 4);
    hide LocationBytes, SumBytes, Word, VarintTo, LittleEndian, ChecksumTo, LocCodec;
    assert HeadCodec().enc(HeadOf(f)) == HeadBytes(f);
    assert TailTo(f, t) == TailBytes(f, t);
  }

  lemma {:induction false} FragmentsBytes(fs: seq<seq<Fragment>>, t: Tail)
    requires FragmentsFit(fs, t)
    ensures Fragments(t).enc(fs) == LayoutBytes(fs, t)
  {
    var chunk := Layout(NO_FRAGMENT, FragmentCodecFor(t));
    forall c | 0 <= c < |fs|
      ensures chunk.enc(fs[c]) == ChunkBytes(fs[c], t)
    {
      assert ChunkFits(fs[c], t);
      forall i | 0 <= i < |fs[c]| ensures FragmentTo(fs[c][i], t) == FragmentBytes(fs[c][i], t) {
        RecordBytes(fs[c][i], t);
      }
      ListBytes(FragmentCodecFor(t).enc, fs[c],
                seq(|fs[c]|, i requires 0 <= i < |fs[c]| => FragmentBytes(fs[c][i], t)));
    }
    ListBytes(chunk.enc, fs, seq(|fs|, c requires 0 <= c < |fs| => ChunkBytes(fs[c], t)));
  }

  lemma {:induction false} ChunkSizesBytes(sizes: seq<nat>)
    requires |sizes| < TWO32
    ensures Chunks().enc(sizes) == SizesBytes(sizes)
  {
    forall i | 0 <= i < |sizes| ensures U32.enc(sizes[i]) == Word(sizes[i], 4) {
      WordBytes(sizes[i], 4);
    }
    ListBytes(U32.enc, sizes, seq(|sizes|, i requires 0 <= i < |sizes| => Word(sizes[i], 4)));
  }

  /** A manifest body is written as exactly these bytes, and these bytes, whatever follows them, are read
      as that manifest. */
  lemma {:induction false} BodyFormat(m: Manifest, t: Tail, rest: seq<byte>)
    requires ManifestFits(m) && FragmentsFit(m.fragments, t)
    ensures BodyTo(m, t) == BodyBytes(m, t)
    ensures BodyFrom(BodyBytes(m, t) + rest) == Ok(m, |BodyBytes(m, t)|)
  {
    BodyReads(m, t, rest);
    TextBytes(m.name);
    TextBytes(m.objectId);
    ChunkSizesBytes(m.chunkSizes);
    CodingSchemeBytes(m.scheme);
    EncryptionBytes(m.encryptInfo);
    ChecksumBytes(m.checksum);
    WordBytes(m.size, 8);
    FragmentsBytes(m.fragments, t);
    hide Text, SizesBytes, SchemeBytes, CipherBytes, SumBytes, Word, LayoutBytes, StringTo, Chunks, EncryptTo,
      ChecksumTo, LittleEndian, Fragments, SchemeCodec;
    assert NamesCodec().enc(BodyOf(m).0) == Text(m.name) + (Text(m.objectId) + SizesBytes(m.chunkSizes));
    assert CodingCodec().enc(BodyOf(m).1.0) == [1] + (SchemeBytes(m.scheme) + [CompressionByte(m.compression)]);
    assert ContentsCodec().enc(BodyOf(m).1.1.0)
        == CipherBytes(m.encryptInfo) + (SumBytes(m.checksum) + Word(m.size, 8));
  }
}
