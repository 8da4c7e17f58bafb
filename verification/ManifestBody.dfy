/** The decompressed body of a version 2 manifest. */
module ManifestBody {
  import opened Sequences
  import opened Bytes
  import opened Llio
  import opened ManifestFields
  import opened FragmentCodec

  // read by a loop of its own, whose exceptions are not stopped
  function Layout<T(!new)>(zero: T, c: Codec<T>): Codec<seq<T>> {
    Codec((ts: seq<T>) => VectorTo(c.enc, ts), (bs: seq<byte>, pos: nat) => LayoutFrom(zero, c.dec, bs, pos))
  }

  lemma {:induction false} LayoutRoundTrips<T(!new)>(zero: T, c: Codec<T>, ts: seq<T>)
    requires AllRoundTrip(c, ts) && |ts| <= TWO31
    ensures RoundTrips(Layout(zero, c), ts)
  {
    var l := Layout(zero, c);
    forall bs: seq<byte>, pos: nat | At(bs, pos, l.enc(ts))
      ensures l.dec(bs, pos) == Ok(ts, pos + |l.enc(ts)|)
    {
      LayoutRoundTrip(zero, c, ts, bs, pos);
    }
  }

  // what an element of a vector is before it is read
  const NO_FRAGMENT := Fragment((None, 0), NoChecksum, 0, None, None)

  function Chunks(): Codec<seq<nat>> { Vector(0, U32) }

  function FragmentCodecFor(t: Tail): Codec<Fragment> {
    Codec((f: Fragment) => FragmentTo(f, t), FragmentFrom)
  }

  function Fragments(t: Tail): Codec<seq<seq<Fragment>>> {
    Layout([], Layout(NO_FRAGMENT, FragmentCodecFor(t)))
  }

  // The fields in the order in which they stand. `fs` is the codec of the fragments.
  type Names = (seq<byte>, (seq<byte>, seq<nat>))
  type Coding = ((), (((), (nat, (nat, byte))), Compression))
  type Contents = (EncryptInfo, (Checksum, nat))
  type Body = (Names, (Coding, (Contents, ((), seq<seq<Fragment>>))))

  function NamesCodec(): Codec<Names> { Then(STRING, Then(STRING, Chunks())) }
  function CodingCodec(): Codec<Coding> { Then(ONE, Then(SchemeCodec(), COMPRESSION)) }
  function ContentsCodec(): Codec<Contents> { Then(ENCRYPT, Then(CHECKSUM, U64)) }

  function BodyCodec(fs: Codec<seq<seq<Fragment>>>): Codec<Body> {
    Then(NamesCodec(), Then(CodingCodec(), Then(ContentsCodec(), Then(ONE, fs))))
  }

  function BodyOf(m: Manifest): Body {
    ((m.name, (m.objectId, m.chunkSizes)),
     (((), (((), (m.scheme.k, (m.scheme.m, m.scheme.w))), m.compression)),
      ((m.encryptInfo, (m.checksum, m.size)), ((), m.fragments))))
  }

  function ManifestOf(b: Body): Manifest {
    Manifest(b.0.0, b.0.1.0, b.0.1.1,
             EncodingScheme(b.1.0.1.0.1.0, b.1.0.1.0.1.1.0, b.1.0.1.0.1.1.1), b.1.0.1.1,
             b.1.1.0.0, b.1.1.0.1.0, b.1.1.0.1.1, b.1.1.1.1)
  }

  predicate ManifestFits(m: Manifest) {
    && |m.name| < TWO31 && |m.objectId| < TWO31
    && |m.chunkSizes| <= TWO31 && (forall i :: 0 <= i < |m.chunkSizes| ==> m.chunkSizes[i] < TWO32)
    && m.scheme.k < TWO32 && m.scheme.m < TWO32
    && (m.encryptInfo.Encrypted? ==> |m.encryptInfo.keyId| == 32)
    && ChecksumFits(m.checksum) && m.size < TWO64
  }

  predicate FragmentsFit(fs: seq<seq<Fragment>>, t: Tail) {
    |fs| <= TWO31 && forall c :: 0 <= c < |fs| ==> ChunkFits(fs[c], t)
  }

  predicate ChunkFits(fs: seq<Fragment>, t: Tail) {
    |fs| <= TWO31 && forall i :: 0 <= i < |fs| ==> Writable(fs[i], t)
  }

  lemma {:induction false} FragmentRoundTrips(f: Fragment, t: Tail)
    requires Writable(f, t)
    ensures RoundTrips(FragmentCodecFor(t), f)
  {
    var c := FragmentCodecFor(t);
    forall bs: seq<byte>, pos: nat | At(bs, pos, c.enc(f))
      ensures c.dec(bs, pos) == Ok(f, pos + |c.enc(f)|)
    {
      FragmentReads(f, t, bs, pos);
    }
  }

  lemma {:induction false} ChunkRoundTrips(fs: seq<Fragment>, t: Tail)
    requires ChunkFits(fs, t)
    ensures RoundTrips(Layout(NO_FRAGMENT, FragmentCodecFor(t)), fs)
  {
    var c := FragmentCodecFor(t);
    forall i | 0 <= i < |fs| ensures RoundTrips(c, fs[i]) {
      FragmentRoundTrips(fs[i], t);
    }
    LayoutRoundTrips(NO_FRAGMENT, c, fs);
  }

  lemma {:induction false} FragmentsRoundTrip(fs: seq<seq<Fragment>>, t: Tail)
    requires FragmentsFit(fs, t)
    ensures RoundTrips(Fragments(t), fs)
  {
    var c := Layout(NO_FRAGMENT, FragmentCodecFor(t));
    forall i | 0 <= i < |fs| ensures RoundTrips(c, fs[i]) {
      ChunkRoundTrips(fs[i], t);
    }
    LayoutRoundTrips([], c, fs);
  }

  lemma {:induction false} ChunksRoundTrip(sizes: seq<nat>)
    requires |sizes| <= TWO31 && forall i :: 0 <= i < |sizes| ==> sizes[i] < TWO32
    ensures RoundTrips(Chunks(), sizes)
  {
    forall i | 0 <= i < |sizes| ensures RoundTrips(U32, sizes[i]) {
      U32RoundTrips(sizes[i]);
    }
    VectorRoundTrips(0, U32, sizes);
  }

  lemma {:induction false} NamesRoundTrip(m: Manifest)
    requires ManifestFits(m)
    ensures RoundTrips(NamesCodec(), BodyOf(m).0)
  {
    StringRoundTripsIffShort(m.name);
    StringRoundTripsIffShort(m.objectId);
    ChunksRoundTrip(m.chunkSizes);
    ThenRoundTrips(STRING, Chunks(), m.objectId, m.chunkSizes);
    ThenRoundTrips(STRING, Then(STRING, Chunks()), m.name, (m.objectId, m.chunkSizes));
  }

  lemma {:induction false} CodingRoundTrips(m: Manifest)
    requires ManifestFits(m)
    ensures RoundTrips(CodingCodec(), BodyOf(m).1.0)
  {
    var s := ((), (m.scheme.k, (m.scheme.m, m.scheme.w)));
    OneRoundTrips();
    SchemeRoundTrips(m.scheme.k, m.scheme.m, m.scheme.w);
    CompressionRoundTrips(m.compression);
    ThenRoundTrips(SchemeCodec(), COMPRESSION, s, m.compression);
    ThenRoundTrips(ONE, Then(SchemeCodec(), COMPRESSION), (), (s, m.compression));
  }

  lemma {:induction false} ContentsRoundTrip(m: Manifest)
    requires ManifestFits(m)
    ensures RoundTrips(ContentsCodec(), BodyOf(m).1.1.0)
  {
    EncryptRoundTrips(m.encryptInfo);
    ChecksumRoundTrips(m.checksum);
    U64RoundTrips(m.size);
    ThenRoundTrips(CHECKSUM, U64, m.checksum, m.size);
    ThenRoundTrips(ENCRYPT, Then(CHECKSUM, U64), m.encryptInfo, (m.checksum, m.size));
  }

  // four readers in a row
  lemma {:induction false} FourRoundTrip<A(!new), B(!new), C(!new),
    D(!new)>(ca: Codec<A>, cb: Codec<B>, cc: Codec<C>, cd: Codec<D>, a: A, b: B, c: C, d: D)
    requires RoundTrips(ca, a) && RoundTrips(cb, b) && RoundTrips(cc, c) && RoundTrips(cd, d)
    ensures RoundTrips(Then(ca, Then(cb, Then(cc, cd))), (a, (b, (c, d))))
  {
    ThenRoundTrips(cc, cd, c, d);
    ThenRoundTrips(cb, Then(cc, cd), b, (c, d));
    ThenRoundTrips(ca, Then(cb, Then(cc, cd)), a, (b, (c, d)));
  }

  lemma {:induction false} BodyRoundTrips(m: Manifest, fs: Codec<seq<seq<Fragment>>>)
    requires ManifestFits(m) && RoundTrips(fs, m.fragments)
    ensures RoundTrips(BodyCodec(fs), BodyOf(m))
  {
    NamesRoundTrip(m);
    CodingRoundTrips(m);
    ContentsRoundTrip(m);
    OneRoundTrips();
    ThenRoundTrips(ONE, fs, (), m.fragments);
    FourRoundTrip(NamesCodec(), CodingCodec(), ContentsCodec(), Then(ONE, fs),
                  BodyOf(m).0, BodyOf(m).1.0, BodyOf(m).1.1.0, BodyOf(m).1.1.1);
  }

  // ------------------------------------------------------------------
  // Reading a body
  // ------------------------------------------------------------------

  function MapBody(p: Parsed<Body>): Parsed<Manifest> {
    if p.Ok? then Ok(ManifestOf(p.value), p.pos) else Failed(p)
  }

  function BodyTo(m: Manifest, t: Tail): seq<byte> {
    BodyCodec(Fragments(t)).enc(BodyOf(m))
  }

  // `body` is what decompression gave
  function BodyFrom(body: seq<byte>): Parsed<Manifest> {
    MapBody(BodyCodec(Fragments(Current)).dec(body, 0))
  }

  lemma {:induction false} BackAgain(m: Manifest)
    ensures ManifestOf(BodyOf(m)) == m
  {
  }

  // the same reader, whatever the writers
  ghost predicate SameReader<T(!new)>(c: Codec<T>, d: Codec<T>) {
    forall bs: seq<byte>, pos: nat :: c.dec(bs, pos) == d.dec(bs, pos)
  }

  lemma {:induction false} ThenSameReader<X(!new), Y(!new)>(cx: Codec<X>, cy: Codec<Y>, dy: Codec<Y>)
    requires SameReader(cy, dy)
    ensures SameReader(Then(cx, cy), Then(cx, dy))
  {
  }

  lemma {:induction false} ItemsSameReader<T(!new)>(c: Codec<T>, d: Codec<T>, bs: seq<byte>, pos: nat, n: nat)
    requires SameReader(c, d)
    ensures ItemsFrom(c.dec, bs, pos, n) == ItemsFrom(d.dec, bs, pos, n)
    decreases n
  {
    if n > 0 {
      assert c.dec(bs, pos) == d.dec(bs, pos);
      if c.dec(bs, pos).Ok? {
        ItemsSameReader(c, d, bs, c.dec(bs, pos).pos, n - 1);
      }
    }
  }

  lemma {:induction false} LayoutSameReader<T(!new)>(zero: T, c: Codec<T>, d: Codec<T>)
    requires SameReader(c, d)
    ensures SameReader(Layout(zero, c), Layout(zero, d))
  {
    forall bs: seq<byte>, pos: nat
      ensures LayoutFrom(zero, c.dec, bs, pos) == LayoutFrom(zero, d.dec, bs, pos)
    {
      var size := WordFrom(4, bs, pos);
      if size.Ok? {
        ItemsSameReader(c, d, bs, size.pos, size.value);
      }
    }
  }

  lemma {:induction false} FragmentsSameReader(t: Tail)
    ensures SameReader(Fragments(t), Fragments(Current))
  {
    LayoutSameReader(NO_FRAGMENT, FragmentCodecFor(t), FragmentCodecFor(Current));
    LayoutSameReader([], Layout(NO_FRAGMENT, FragmentCodecFor(t)), Layout(NO_FRAGMENT, FragmentCodecFor(Current)));
  }

  lemma {:induction false} BodySameReader(f: Codec<seq<seq<Fragment>>>, g: Codec<seq<seq<Fragment>>>)
    requires SameReader(f, g)
    ensures SameReader(BodyCodec(f), BodyCodec(g))
  {
    ThenSameReader(ONE, f, g);
    ThenSameReader(ContentsCodec(), Then(ONE, f), Then(ONE, g));
    ThenSameReader(CodingCodec(), Then(ContentsCodec(), Then(ONE, f)), Then(ContentsCodec(), Then(ONE, g)));
    ThenSameReader(NamesCodec(), Then(CodingCodec(), Then(ContentsCodec(), Then(ONE, f))),
                   Then(CodingCodec(), Then(ContentsCodec(), Then(ONE, g))));
  }

  lemma {:induction false} ReadBack<T(!new)>(c: Codec<T>, d: Codec<T>, t: T, rest: seq<byte>)
    requires RoundTrips(c, t) && SameReader(c, d)
    ensures d.dec(c.enc(t) + rest, 0) == Ok(t, |c.enc(t)|)
  {
    assert (c.enc(t) + rest)[0..|c.enc(t)|] == c.enc(t);
    assert At(c.enc(t) + rest, 0, c.enc(t));
  }

  /** A manifest body reads back, whatever tail its fragments carry and whatever follows it. */
  lemma {:induction false} BodyReads(m: Manifest, t: Tail, rest: seq<byte>)
    requires ManifestFits(m) && FragmentsFit(m.fragments, t)
    ensures BodyFrom(BodyTo(m, t) + rest) == Ok(m, |BodyTo(m, t)|)
  {
    FragmentsRoundTrip(m.fragments, t);
    BodyRoundTrips(m, Fragments(t));
    FragmentsSameReader(t);
    BodySameReader(Fragments(t), Fragments(Current));
    ReadBack(BodyCodec(Fragments(t)), BodyCodec(Fragments(Current)), BodyOf(m), rest);
    BackAgain(m);
  }

  // ------------------------------------------------------------------
  // Bodies that fail a version or tag check
  // ------------------------------------------------------------------

  lemma {:induction false} ThrowsHere<T(!new)>(c: Codec<T>, enc: seq<byte>, e: Exit)
    requires Throws(c, enc, e)
    ensures Exits(c.dec(enc, 0), e)
  {
    assert enc[0..|enc|] == enc;
    assert At(enc, 0, enc);
  }

  function AfterNames(fs: Codec<seq<seq<Fragment>>>): Codec<(Coding, (Contents, ((), seq<seq<Fragment>>)))> {
    Then(CodingCodec(), Then(ContentsCodec(), Then(ONE, fs)))
  }

  /** A version byte other than 1 after the chunk sizes. */
  lemma {:induction false} BadVersion2Throws(m: Manifest, b: byte, rest: seq<byte>)
    requires ManifestFits(m) && b != 1
    ensures BodyFrom(NamesCodec().enc(BodyOf(m).0) + ([b] + rest)).Thrown?
  {
    var fs := Fragments(Current);
    NamesRoundTrip(m);
    OtherTagThrows(b);
    ThenThrowsAtOnce(ONE, Then(SchemeCodec(), COMPRESSION), [b], Deserialisation);
    ThenThrowsFirst(CodingCodec(), Then(ContentsCodec(), Then(ONE, fs)), [b], rest, Deserialisation);
    ThenThrowsSecond(NamesCodec(), AfterNames(fs), BodyOf(m).0, [b] + rest, Deserialisation);
    ThrowsHere(BodyCodec(fs), NamesCodec().enc(BodyOf(m).0) + ([b] + rest), Deserialisation);
  }

  /** An unknown encryption scheme. */
  lemma {:induction false} UnknownEncryptionFails(m: Manifest, b: byte, rest: seq<byte>)
    requires ManifestFits(m) && b != 1 && b != 2
    ensures BodyFrom(NamesCodec().enc(BodyOf(m).0) + (CodingCodec().enc(BodyOf(m).1.0) + ([b] + rest))).Thrown?
  {
    var fs := Fragments(Current);
    NamesRoundTrip(m);
    CodingRoundTrips(m);
    UnknownEncryptionThrows(b);
    ThenThrowsAtOnce(ENCRYPT, Then(CHECKSUM, U64), [b], Deserialisation);
    ThenThrowsFirst(ContentsCodec(), Then(ONE, fs), [b], rest, Deserialisation);
    ThenThrowsSecond(CodingCodec(), Then(ContentsCodec(), Then(ONE, fs)), BodyOf(m).1.0, [b] + rest, Deserialisation);
    ThenThrowsSecond(NamesCodec(), AfterNames(fs), BodyOf(m).0, CodingCodec().enc(BodyOf(m).1.0) + ([b] + rest),
                     Deserialisation);
    ThrowsHere(BodyCodec(fs), NamesCodec().enc(BodyOf(m).0) + (CodingCodec().enc(BodyOf(m).1.0) + ([b] + rest)),
               Deserialisation);
  }

  // the body up to its checksum, which is read after the encryption
  function UpToChecksum(m: Manifest, rest: seq<byte>): seq<byte> {
    NamesCodec().enc(BodyOf(m).0) + (CodingCodec().enc(BodyOf(m).1.0) + (ENCRYPT.enc(m.encryptInfo) + rest))
  }

  /** An unknown checksum type ends the read of a body in another exception than every other tag. */
  lemma {:induction false} UnknownChecksumFails(m: Manifest, b: byte, rest: seq<byte>)
    requires ManifestFits(m) && !(1 <= b <= 3)
    ensures BodyFrom(UpToChecksum(m, [b] + rest)).ThrownOther?
  {
    var fs := Fragments(Current);
    var bad := ENCRYPT.enc(m.encryptInfo) + ([b] + rest);
    NamesRoundTrip(m);
    CodingRoundTrips(m);
    EncryptRoundTrips(m.encryptInfo);
    UnknownChecksumThrows(b);
    ThenThrowsFirst(CHECKSUM, U64, [b], rest, OtherException);
    ThenThrowsSecond(ENCRYPT, Then(CHECKSUM, U64), m.encryptInfo, [b] + rest, OtherException);
    ThenThrowsAtOnce(ContentsCodec(), Then(ONE, fs), bad, OtherException);
    ThenThrowsSecond(CodingCodec(), Then(ContentsCodec(), Then(ONE, fs)), BodyOf(m).1.0, bad, OtherException);
    ThenThrowsSecond(NamesCodec(), AfterNames(fs), BodyOf(m).0, CodingCodec().enc(BodyOf(m).1.0) + bad, OtherException);
    ThrowsHere(BodyCodec(fs), UpToChecksum(m, [b] + rest), OtherException);
  }

  /** A key id of another kind than 1: the process ends. */
  lemma {:induction false} UnknownKeyKindFails(m: Manifest, mode: Mode, b: byte, rest: seq<byte>)
    requires ManifestFits(m) && b != 1
    ensures BodyFrom(NamesCodec().enc(BodyOf(m).0)
                     + (CodingCodec().enc(BodyOf(m).1.0) + UpToKeyId(mode, [b] + rest))).Aborted?
  {
    var fs := Fragments(Current);
    var bad := UpToKeyId(mode, [b] + rest);
    NamesRoundTrip(m);
    CodingRoundTrips(m);
    UnknownKeyKindEnds(mode, b, rest);
    hide UpToKeyId;
    ThenThrowsAtOnce(ENCRYPT, Then(CHECKSUM, U64), bad, Abort);
    ThenThrowsAtOnce(ContentsCodec(), Then(ONE, fs), bad, Abort);
    ThenThrowsSecond(CodingCodec(), Then(ContentsCodec(), Then(ONE, fs)), BodyOf(m).1.0, bad, Abort);
    ThenThrowsSecond(NamesCodec(), AfterNames(fs), BodyOf(m).0, CodingCodec().enc(BodyOf(m).1.0) + bad, Abort);
    ThrowsHere(BodyCodec(fs), NamesCodec().enc(BodyOf(m).0) + (CodingCodec().enc(BodyOf(m).1.0) + bad), Abort);
  }

  // the record of a fragment with checksum type b
  function BadRecord(loc: (Option<nat>, nat), b: byte, rest: seq<byte>): seq<byte> {
    var payload := BadPayload(loc, b, rest);
    VarintTo(|payload|) + payload
  }

  function BadPayload(loc: (Option<nat>, nat), b: byte, rest: seq<byte>): seq<byte> {
    [1] + (LocCodec().enc(loc) + ([b] + rest))
  }

  lemma {:induction false} BadHeadThrows(loc: (Option<nat>, nat), b: byte, rest: seq<byte>)
    requires (loc.0.Some? ==> loc.0.value < TWO64) && loc.1 < TWO32 && !(1 <= b <= 3)
    ensures Throws(HeadCodec(), BadPayload(loc, b, rest), OtherException)
  {
    OneRoundTrips();
    LocRoundTrips(loc);
    UnknownChecksumThrows(b);
    ThenThrowsFirst(CHECKSUM, U32, [b], rest, OtherException);
    ThenThrowsSecond(LocCodec(), Then(CHECKSUM, U32), loc, [b] + rest, OtherException);
    ThenThrowsSecond(ONE, Then(LocCodec(), Then(CHECKSUM, U32)), (), LocCodec().enc(loc) + ([b] + rest),
                     OtherException);
  }

  lemma {:induction false} BadRecordThrows(loc: (Option<nat>, nat), b: byte, rest: seq<byte>)
    requires (loc.0.Some? ==> loc.0.value < TWO64) && loc.1 < TWO32 && !(1 <= b <= 3)
    requires |BadPayload(loc, b, rest)| < TWO31
    ensures Throws(FragmentCodecFor(Current), BadRecord(loc, b, rest), OtherException)
  {
    var payload := BadPayload(loc, b, rest);
    BadHeadThrows(loc, b, rest);
    forall bs: seq<byte>, pos: nat | At(bs, pos, BadRecord(loc, b, rest))
      ensures FragmentFrom(bs, pos).ThrownOther?
    {
      BadHeadEnds(payload, bs, pos);
    }
  }

  // a record ends as the part that all versions have ends
  lemma {:induction false} BadHeadEnds(payload: seq<byte>, bs: seq<byte>, pos: nat)
    requires Throws(HeadCodec(), payload, OtherException)
    requires |payload| < TWO31 && At(bs, pos, VarintTo(|payload|) + payload)
    ensures FragmentFrom(bs, pos).ThrownOther?
  {
    hide VarintFrom, VarintTo, At, FramedFrom, TailFrom;
    var hc, start := HeadCodec(), pos + |VarintTo(|payload|)|;
    VarintReads(|payload|, payload, bs, pos);
    FramedReads(VarintFrom, (view: seq<byte>, p: nat, end: nat) => PayloadFrom(hc, view, p, end), bs, pos, payload,
                start);
    assert At(bs[..start + |payload|], start, payload);
    assert Exits(hc.dec(bs[..start + |payload|], start), OtherException);
  }

  // Vectors are written last element first: these have been read when the bad element is met.
  lemma {:induction false} ItemsThrow<T(!new)>(c: Codec<T>, ts: seq<T>, bad: seq<byte>, e: Exit, n: nat,
                                               bs: seq<byte>, pos: nat)
    requires AllRoundTrip(c, ts) && Throws(c, bad, e) && n > |ts| && At(bs, pos, ItemsTo(c.enc, ts) + bad)
    ensures Exits(ItemsFrom(c.dec, bs, pos, n), e)
    decreases |ts|
  {
    AtConcat(bs, pos, ItemsTo(c.enc, ts), bad);
    if ts != [] {
      var last, front := ts[|ts| - 1], ts[..|ts| - 1];
      AtConcat(bs, pos, c.enc(last), ItemsTo(c.enc, front));
      assert RoundTrips(c, ts[|ts| - 1]);
      AtConcat(bs, pos + |c.enc(last)|, ItemsTo(c.enc, front), bad);
      ItemsThrow(c, front, bad, e, n - 1, bs, pos + |c.enc(last)|);
    }
  }

  // a vector of n elements, of which the last ones are ts, up to the one before them
  function UpToItem<T>(enc: T -> seq<byte>, n: nat, ts: seq<T>, rest: seq<byte>): seq<byte> {
    LittleEndian(n, 4) + (ItemsTo(enc, ts) + rest)
  }

  lemma {:induction false} LayoutThrows<T(!new)>(zero: T, c: Codec<T>, n: nat, ts: seq<T>, bad: seq<byte>, e: Exit)
    requires AllRoundTrip(c, ts) && Throws(c, bad, e) && |ts| < n <= TWO31
    ensures Throws(Layout(zero, c), UpToItem(c.enc, n, ts, bad), e)
  {
    forall bs: seq<byte>, pos: nat | At(bs, pos, UpToItem(c.enc, n, ts, bad))
      ensures Exits(Layout(zero, c).dec(bs, pos), e)
    {
      SizePrefix(n, ItemsTo(c.enc, ts) + bad, bs, pos);
      ItemsThrow(c, ts, bad, e, n, bs, pos + 4);
    }
  }

  // the fragments of a body, up to one with checksum type b: `chunks` and `fs` stand behind it
  function UpToFragment(nChunks: nat, chunks: seq<seq<Fragment>>, nFragments: nat, fs: seq<Fragment>,
                        rest: seq<byte>): seq<byte> {
    UpToItem(Layout(NO_FRAGMENT, FragmentCodecFor(Current)).enc, nChunks, chunks,
             UpToItem(FragmentCodecFor(Current).enc, nFragments, fs, rest))
  }

  lemma {:induction false} BadFragmentsThrow(nChunks: nat, chunks: seq<seq<Fragment>>, nFragments: nat,
                                             fs: seq<Fragment>, bad: seq<byte>, e: Exit)
    requires |chunks| < nChunks <= TWO31 && FragmentsFit(chunks, Current)
    requires |fs| < nFragments <= TWO31 && ChunkFits(fs, Current) && Throws(FragmentCodecFor(Current), bad, e)
    ensures Throws(Fragments(Current), UpToFragment(nChunks, chunks, nFragments, fs, bad), e)
  {
    var c := FragmentCodecFor(Current);
    forall i | 0 <= i < |fs| ensures RoundTrips(c, fs[i]) { FragmentRoundTrips(fs[i], Current); }
    LayoutThrows(NO_FRAGMENT, c, nFragments, fs, bad, e);
    var l := Layout(NO_FRAGMENT, c);
    forall i | 0 <= i < |chunks| ensures RoundTrips(l, chunks[i]) { ChunkRoundTrips(chunks[i], Current); }
    hide Layout, UpToItem;
    LayoutThrows([], l, nChunks, chunks, UpToItem(c.enc, nFragments, fs, bad), e);
  }

  /** An unknown checksum type of any fragment, whichever chunks and fragments are read before it,
      ends the read of a body in that other exception too. */
  lemma {:induction false} UnknownFragmentChecksumFails(m: Manifest, nChunks: nat, chunks: seq<seq<Fragment>>,
                                                        nFragments: nat, fs: seq<Fragment>,
                                                        loc: (Option<nat>, nat), b: byte, rest: seq<byte>,
                                                          more: seq<byte>)
    requires ManifestFits(m) && |chunks| < nChunks <= TWO31 && FragmentsFit(chunks, Current)
    requires |fs| < nFragments <= TWO31 && ChunkFits(fs, Current)
    requires (loc.0.Some? ==> loc.0.value < TWO64) && loc.1 < TWO32 && !(1 <= b <= 3)
             && |BadPayload(loc, b, rest)| < TWO31
    ensures BodyFrom(UpToFragments(m,
                                   UpToFragment(nChunks, chunks, nFragments, fs,
                                                BadRecord(loc, b, rest) + more))).ThrownOther?
  {
    var bad := BadRecord(loc, b, rest);
    BadRecordThrows(loc, b, rest);
    ThrowsLonger(FragmentCodecFor(Current), bad, more, OtherException);
    BadFragmentsThrow(nChunks, chunks, nFragments, fs, bad + more, OtherException);
    hide UpToFragment, BadRecord, BadPayload, Fragments;
    BadLayoutEnds(m, UpToFragment(nChunks, chunks, nFragments, fs, bad + more), OtherException);
  }

  // the body up to its fragments
  function UpToFragments(m: Manifest, rest: seq<byte>): seq<byte> {
    NamesCodec().enc(BodyOf(m).0)
    + (CodingCodec().enc(BodyOf(m).1.0) + (ContentsCodec().enc(BodyOf(m).1.1.0) + ([1] + rest)))
  }

  lemma {:induction false} BadLayoutEnds(m: Manifest, bad: seq<byte>, e: Exit)
    requires ManifestFits(m) && Throws(Fragments(Current), bad, e)
    ensures Exits(BodyFrom(UpToFragments(m, bad)), e) && !BodyFrom(UpToFragments(m, bad)).Ok?
  {
    var fs := Fragments(Current);
    NamesRoundTrip(m);
    CodingRoundTrips(m);
    ContentsRoundTrip(m);
    OneRoundTrips();
    ThenThrowsSecond(ONE, fs, (), bad, e);
    ThreeThenThrow(NamesCodec(), CodingCodec(), ContentsCodec(), Then(ONE, fs),
                   BodyOf(m).0, BodyOf(m).1.0, BodyOf(m).1.1.0, [1] + bad, e);
  }

  /** A layout tag other than 1 in front of the fragments. */
  lemma {:induction false} BadLayoutTagThrows(m: Manifest, b: byte, rest: seq<byte>)
    requires ManifestFits(m) && b != 1
    ensures BodyFrom(NamesCodec().enc(BodyOf(m).0)
                     + (CodingCodec().enc(BodyOf(m).1.0)
                        + (ContentsCodec().enc(BodyOf(m).1.1.0) + ([b] + rest)))).Thrown?
  {
    var fs := Fragments(Current);
    NamesRoundTrip(m);
    CodingRoundTrips(m);
    ContentsRoundTrip(m);
    OtherTagThrows(b);
    ThenThrowsFirst(ONE, fs, [b], rest, Deserialisation);
    ThreeThenThrow(NamesCodec(), CodingCodec(), ContentsCodec(), Then(ONE, fs),
                   BodyOf(m).0, BodyOf(m).1.0, BodyOf(m).1.1.0, [b] + rest, Deserialisation);
  }

  lemma {:induction false} ThreeThenThrow<A(!new), B(!new), C(!new),
    D(!new)>(ca: Codec<A>, cb: Codec<B>, cc: Codec<C>, cd: Codec<D>,
                                                           a: A, b: B, c: C, bad: seq<byte>, e: Exit)
    requires RoundTrips(ca, a) && RoundTrips(cb, b) && RoundTrips(cc, c) && Throws(cd, bad, e)
    ensures Exits(Then(ca, Then(cb, Then(cc, cd))).dec(ca.enc(a) + (cb.enc(b) + (cc.enc(c) + bad)), 0), e)
  {
    ThenThrowsSecond(cc, cd, c, bad, e);
    ThenThrowsSecond(cb, Then(cc, cd), b, cc.enc(c) + bad, e);
    ThenThrowsSecond(ca, Then(cb, Then(cc, cd)), a, cb.enc(b) + (cc.enc(c) + bad), e);
    ThrowsHere(Then(ca, Then(cb, Then(cc, cd))), ca.enc(a) + (cb.enc(b) + (cc.enc(c) + bad)), e);
  }
}
