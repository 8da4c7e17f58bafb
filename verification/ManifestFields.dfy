/** The fields of a serialised manifest, and readers that follow one another. */
module ManifestFields {
  import opened Sequences
  import opened Bytes
  import opened Llio

  datatype Checksum = NoChecksum | Sha1(digest: seq<byte>) | Crc32cOf(value: nat)
  datatype Compression = NoCompression | Snappy | BZip2 | TestCompression
  datatype Mode = Cbc | Ctr
  // the only algorithm is AES and the only key length 256 bits
  datatype EncryptInfo = NoEncryption | Encrypted(mode: Mode, keyId: seq<byte>)
  datatype EncodingScheme = EncodingScheme(k: nat, m: nat, w: byte)
  datatype Fragment = Fragment(loc: (Option<nat>, nat), crc: Checksum, len: nat,
                               ctr: Option<seq<byte>>, fnr: Option<seq<byte>>)
  datatype Manifest = Manifest(name: seq<byte>, objectId: seq<byte>, chunkSizes: seq<nat>, scheme: EncodingScheme,
                               compression: Compression, encryptInfo: EncryptInfo, checksum: Checksum, size: nat,
                               fragments: seq<seq<Fragment>>)

  // ------------------------------------------------------------------
  // One reader after the other; the first failure is the outcome
  // ------------------------------------------------------------------

  function Failed<T, U>(p: Parsed<T>): Parsed<U>
    requires !p.Ok?
  {
    match p
    case Thrown(pos) => Thrown(pos)
    case ThrownOther => ThrownOther
    case Aborted => Aborted
  }

  function ThenFrom<X, Y>(dx: (seq<byte>, nat) -> Parsed<X>, dy: (seq<byte>, nat) -> Parsed<Y>,
                          bs: seq<byte>, pos: nat): Parsed<(X, Y)>
  {
    var x := dx(bs, pos);
    if !x.Ok? then Failed(x)
    else
      var y := dy(bs, x.pos);
      if !y.Ok? then Failed(y) else Ok((x.value, y.value), y.pos)
  }

  function Then<X(!new), Y(!new)>(cx: Codec<X>, cy: Codec<Y>): Codec<(X, Y)> {
    Codec((p: (X, Y)) => cx.enc(p.0) + cy.enc(p.1),
          (bs: seq<byte>, pos: nat) => ThenFrom(cx.dec, cy.dec, bs, pos))
  }

  lemma {:induction false} ThenRoundTrips<X(!new), Y(!new)>(cx: Codec<X>, cy: Codec<Y>, x: X, y: Y)
    requires RoundTrips(cx, x) && RoundTrips(cy, y)
    ensures RoundTrips(Then(cx, cy), (x, y))
  {
    var c := Then(cx, cy);
    forall bs: seq<byte>, pos: nat | At(bs, pos, c.enc((x, y)))
      ensures c.dec(bs, pos) == Ok((x, y), pos + |c.enc((x, y))|)
    {
      AtConcat(bs, pos, cx.enc(x), cy.enc(y));
    }
  }

  // the ways in which a reader does not return
  datatype Exit = Deserialisation | OtherException | Abort

  predicate Exits<T>(p: Parsed<T>, x: Exit) {
    match x
    case Deserialisation => p.Thrown?
    case OtherException => p.ThrownOther?
    case Abort => p.Aborted?
  }

  // these bytes make the reader end in that way
  ghost predicate Throws<T(!new)>(c: Codec<T>, enc: seq<byte>, e: Exit) {
    forall bs: seq<byte>, pos: nat {:trigger At(bs, pos, enc)} :: At(bs, pos, enc) ==> Exits(c.dec(bs, pos), e)
  }

  lemma {:induction false} ThrowsLonger<T(!new)>(c: Codec<T>, a: seq<byte>, b: seq<byte>, e: Exit)
    requires Throws(c, a, e)
    ensures Throws(c, a + b, e)
  {
    forall bs: seq<byte>, pos: nat | At(bs, pos, a + b)
      ensures Exits(c.dec(bs, pos), e)
    {
      AtConcat(bs, pos, a, b);
    }
  }

  lemma {:induction false} ThenThrowsAtOnce<X(!new), Y(!new)>(cx: Codec<X>, cy: Codec<Y>, a: seq<byte>, e: Exit)
    requires Throws(cx, a, e)
    ensures Throws(Then(cx, cy), a, e)
  {
  }

  lemma {:induction false} ThenThrowsFirst<X(!new),
    Y(!new)>(cx: Codec<X>, cy: Codec<Y>, a: seq<byte>, b: seq<byte>, e: Exit)
    requires Throws(cx, a, e)
    ensures Throws(Then(cx, cy), a + b, e)
  {
    forall bs: seq<byte>, pos: nat | At(bs, pos, a + b)
      ensures Exits(Then(cx, cy).dec(bs, pos), e)
    {
      AtConcat(bs, pos, a, b);
    }
  }

  lemma {:induction false} ThenThrowsSecond<X(!new), Y(!new)>(cx: Codec<X>, cy: Codec<Y>, x: X, b: seq<byte>, e: Exit)
    requires RoundTrips(cx, x) && Throws(cy, b, e)
    ensures Throws(Then(cx, cy), cx.enc(x) + b, e)
  {
    forall bs: seq<byte>, pos: nat | At(bs, pos, cx.enc(x) + b)
      ensures Exits(Then(cx, cy).dec(bs, pos), e)
    {
      AtConcat(bs, pos, cx.enc(x), b);
    }
  }

  // ------------------------------------------------------------------
  // Tags: a byte that selects a case, or must have one value
  // ------------------------------------------------------------------

  function OneFrom(bs: seq<byte>, pos: nat): Parsed<()> {
    var b := U8From(bs, pos);
    if !b.Ok? then Failed(b) else if b.value == 1 then Ok((), b.pos) else Thrown(b.pos)
  }

  const ONE: Codec<()> := Codec((_: ()) => [1], OneFrom)

  lemma {:induction false} ByteAt(bs: seq<byte>, pos: nat, b: byte, rest: seq<byte>)
    requires At(bs, pos, [b] + rest)
    ensures U8From(bs, pos) == Ok(b, pos + 1) && At(bs, pos + 1, rest)
  {
    AtConcat(bs, pos, [b], rest);
    assert bs[pos..pos + 1][0] == bs[pos];
  }

  lemma {:induction false} ByteHere(bs: seq<byte>, pos: nat, b: byte)
    requires At(bs, pos, [b])
    ensures U8From(bs, pos) == Ok(b, pos + 1)
  {
    assert bs[pos..pos + 1][0] == bs[pos];
  }

  lemma {:induction false} OneRoundTrips()
    ensures RoundTrips(ONE, ())
  {
    forall bs: seq<byte>, pos: nat | At(bs, pos, ONE.enc(()))
      ensures ONE.dec(bs, pos) == Ok((), pos + |ONE.enc(())|)
    {
      ByteHere(bs, pos, 1);
    }
  }

  lemma {:induction false} OtherTagThrows(b: byte)
    requires b != 1
    ensures Throws(ONE, [b], Deserialisation)
  {
    forall bs: seq<byte>, pos: nat | At(bs, pos, [b])
      ensures ONE.dec(bs, pos).Thrown?
    {
      ByteHere(bs, pos, b);
    }
  }

  // ------------------------------------------------------------------
  // Checksums, compression, encryption and the encoding scheme
  // ------------------------------------------------------------------

  function ChecksumTo(c: Checksum): seq<byte> {
    match c
    case NoChecksum => [1]
    case Sha1(digest) => [2] + StringTo(digest)
    case Crc32cOf(v) => [3] + LittleEndian(v, 4)
  }

  // an unknown type throws something that is not a deserialisation_exception
  function ChecksumFrom(bs: seq<byte>, pos: nat): Parsed<Checksum> {
    var t := U8From(bs, pos);
    if !t.Ok? then Failed(t)
    else if t.value == 1 then Ok(NoChecksum, t.pos)
    else if t.value == 2 then
      var s := StringFrom(bs, t.pos);
      if !s.Ok? then Failed(s) else Ok(Sha1(s.value), s.pos)
    else if t.value == 3 then
      var d := WordFrom(4, bs, t.pos);
      if !d.Ok? then Failed(d) else Ok(Crc32cOf(d.value), d.pos)
    else ThrownOther
  }

  const CHECKSUM: Codec<Checksum> := Codec(ChecksumTo, ChecksumFrom)

  predicate ChecksumFits(c: Checksum) {
    match c
    case NoChecksum => true
    case Sha1(digest) => |digest| < TWO31
    case Crc32cOf(v) => v < TWO32
  }

  lemma {:induction false} ChecksumRoundTrips(c: Checksum)
    requires ChecksumFits(c)
    ensures RoundTrips(CHECKSUM, c)
  {
    forall bs: seq<byte>, pos: nat | At(bs, pos, CHECKSUM.enc(c))
      ensures CHECKSUM.dec(bs, pos) == Ok(c, pos + |CHECKSUM.enc(c)|)
    {
      match c
      case NoChecksum =>
        ByteHere(bs, pos, 1);
      case Sha1(digest) =>
        ByteAt(bs, pos, 2, StringTo(digest));
        StringRoundTripsIffShort(digest);
        assert At(bs, pos + 1, STRING.enc(digest));
      case Crc32cOf(v) =>
        ByteAt(bs, pos, 3, LittleEndian(v, 4));
        U32RoundTrips(v);
        assert At(bs, pos + 1, U32.enc(v));
    }
  }

  // an unknown checksum type is not reported by a deserialisation_exception
  lemma {:induction false} UnknownChecksumThrows(b: byte)
    requires !(1 <= b <= 3)
    ensures Throws(CHECKSUM, [b], OtherException)
  {
    forall bs: seq<byte>, pos: nat | At(bs, pos, [b])
      ensures CHECKSUM.dec(bs, pos).ThrownOther?
    {
      ByteHere(bs, pos, b);
    }
  }

  function CompressionTag(c: Compression): byte {
    match c
    case NoCompression => 1
    case Snappy => 2
    case BZip2 => 3
    case TestCompression => 4
  }

  function CompressionFrom(bs: seq<byte>, pos: nat): Parsed<Compression> {
    var t := U8From(bs, pos);
    if !t.Ok? then Failed(t)
    else if t.value == 1 then Ok(NoCompression, t.pos)
    else if t.value == 2 then Ok(Snappy, t.pos)
    else if t.value == 3 then Ok(BZip2, t.pos)
    else if t.value == 4 then Ok(TestCompression, t.pos)
    else Thrown(t.pos)
  }

  const COMPRESSION: Codec<Compression> := Codec((c: Compression) => [CompressionTag(c)], CompressionFrom)

  lemma {:induction false} CompressionRoundTrips(c: Compression)
    ensures RoundTrips(COMPRESSION, c)
  {
    forall bs: seq<byte>, pos: nat | At(bs, pos, COMPRESSION.enc(c))
      ensures COMPRESSION.dec(bs, pos) == Ok(c, pos + |COMPRESSION.enc(c)|)
    {
      ByteHere(bs, pos, CompressionTag(c));
    }
  }

  lemma {:induction false} UnknownCompressionThrows(b: byte)
    requires !(1 <= b <= 4)
    ensures Throws(COMPRESSION, [b], Deserialisation)
  {
    forall bs: seq<byte>, pos: nat | At(bs, pos, [b])
      ensures COMPRESSION.dec(bs, pos).Thrown?
    {
      ByteHere(bs, pos, b);
    }
  }

  function ModeFrom(bs: seq<byte>, pos: nat): Parsed<Mode> {
    var t := U8From(bs, pos);
    if !t.Ok? then Failed(t)
    else if t.value == 1 then Ok(Cbc, t.pos)
    else if t.value == 2 then Ok(Ctr, t.pos)
    else Thrown(t.pos)
  }

  // The key's kind is asserted, not checked: another value ends the process.
  function KeyIdFrom(bs: seq<byte>, pos: nat): Parsed<seq<byte>> {
    var t := U8From(bs, pos);
    if !t.Ok? then Failed(t)
    else if t.value != 1 then Aborted
    else
      var s := StringFrom(bs, t.pos);
      if !s.Ok? then Failed(s)
      else if |s.value| != 32 then Thrown(s.pos)
      else s
  }

  const MODE: Codec<Mode> := Codec((m: Mode) => if m.Cbc? then [1] else [2], ModeFrom)
  const KEY_ID: Codec<seq<byte>> := Codec((s: seq<byte>) => [1] + StringTo(s), KeyIdFrom)

  // algorithm, mode, key length, key
  function CipherCodec(): Codec<((), (Mode, ((), seq<byte>)))> {
    Then(ONE, Then(MODE, Then(ONE, KEY_ID)))
  }

  function EncryptTo(e: EncryptInfo): seq<byte> {
    match e
    case NoEncryption => [1]
    case Encrypted(mode, keyId) => [2] + CipherCodec().enc(((), (mode, ((), keyId))))
  }

  function EncryptFrom(bs: seq<byte>, pos: nat): Parsed<EncryptInfo> {
    var t := U8From(bs, pos);
    if !t.Ok? then Failed(t)
    else if t.value == 1 then Ok(NoEncryption, t.pos)
    else if t.value == 2 then
      var c := CipherCodec().dec(bs, t.pos);
      if !c.Ok? then Failed(c) else Ok(Encrypted(c.value.1.0, c.value.1.1.1), c.pos)
    else Thrown(t.pos)
  }

  const ENCRYPT: Codec<EncryptInfo> := Codec(EncryptTo, EncryptFrom)

  lemma {:induction false} ModeRoundTrips(m: Mode)
    ensures RoundTrips(MODE, m)
  {
    forall bs: seq<byte>, pos: nat | At(bs, pos, MODE.enc(m))
      ensures MODE.dec(bs, pos) == Ok(m, pos + |MODE.enc(m)|)
    {
      ByteHere(bs, pos, if m.Cbc? then 1 else 2);
    }
  }

  lemma {:induction false} KeyIdRoundTrips(s: seq<byte>)
    requires |s| == 32
    ensures RoundTrips(KEY_ID, s)
  {
    forall bs: seq<byte>, pos: nat | At(bs, pos, KEY_ID.enc(s))
      ensures KEY_ID.dec(bs, pos) == Ok(s, pos + |KEY_ID.enc(s)|)
    {
      ByteAt(bs, pos, 1, StringTo(s));
      StringRoundTripsIffShort(s);
      assert At(bs, pos + 1, STRING.enc(s));
    }
  }

  lemma {:induction false} CipherRoundTrips(mode: Mode, keyId: seq<byte>)
    requires |keyId| == 32
    ensures RoundTrips(CipherCodec(), ((), (mode, ((), keyId))))
  {
    OneRoundTrips();
    ModeRoundTrips(mode);
    KeyIdRoundTrips(keyId);
    ThenRoundTrips(ONE, KEY_ID, (), keyId);
    ThenRoundTrips(MODE, Then(ONE, KEY_ID), mode, ((), keyId));
    ThenRoundTrips(ONE, Then(MODE, Then(ONE, KEY_ID)), (), (mode, ((), keyId)));
  }

  lemma {:induction false} EncryptRoundTrips(e: EncryptInfo)
    requires e.Encrypted? ==> |e.keyId| == 32
    ensures RoundTrips(ENCRYPT, e)
  {
    forall bs: seq<byte>, pos: nat | At(bs, pos, ENCRYPT.enc(e))
      ensures ENCRYPT.dec(bs, pos) == Ok(e, pos + |ENCRYPT.enc(e)|)
    {
      match e
      case NoEncryption =>
        ByteHere(bs, pos, 1);
      case Encrypted(mode, keyId) =>
        ByteAt(bs, pos, 2, CipherCodec().enc(((), (mode, ((), keyId)))));
        CipherRoundTrips(mode, keyId);
    }
  }

  lemma {:induction false} UnknownEncryptionThrows(b: byte)
    requires b != 1 && b != 2
    ensures Throws(ENCRYPT, [b], Deserialisation)
  {
    forall bs: seq<byte>, pos: nat | At(bs, pos, [b])
      ensures ENCRYPT.dec(bs, pos).Thrown?
    {
      ByteHere(bs, pos, b);
    }
  }

  // the kind of the key id is asserted
  lemma {:induction false} UnknownKeyKindAborts(b: byte)
    requires b != 1
    ensures Throws(KEY_ID, [b], Abort)
  {
    forall bs: seq<byte>, pos: nat | At(bs, pos, [b])
      ensures KEY_ID.dec(bs, pos).Aborted?
    {
      ByteHere(bs, pos, b);
    }
  }

  // an encryption up to its key id
  function UpToKeyId(mode: Mode, rest: seq<byte>): seq<byte> {
    [2] + ([1] + (MODE.enc(mode) + ([1] + rest)))
  }

  lemma {:induction false} UnknownKeyKindEnds(mode: Mode, b: byte, rest: seq<byte>)
    requires b != 1
    ensures Throws(ENCRYPT, UpToKeyId(mode, [b] + rest), Abort)
  {
    OneRoundTrips();
    ModeRoundTrips(mode);
    UnknownKeyKindAborts(b);
    ThrowsLonger(KEY_ID, [b], rest, Abort);
    var key := [b] + rest;
    ThenThrowsSecond(ONE, KEY_ID, (), key, Abort);
    ThenThrowsSecond(MODE, Then(ONE, KEY_ID), mode, [1] + key, Abort);
    ThenThrowsSecond(ONE, Then(MODE, Then(ONE, KEY_ID)), (), MODE.enc(mode) + ([1] + key), Abort);
    var cipher := [1] + (MODE.enc(mode) + ([1] + key));
    forall bs: seq<byte>, pos: nat | At(bs, pos, UpToKeyId(mode, key))
      ensures ENCRYPT.dec(bs, pos).Aborted?
    {
      ByteAt(bs, pos, 2, cipher);
      assert At(bs, pos + 1, cipher);
    }
  }

  // version, k, m, w
  function SchemeCodec(): Codec<((), (nat, (nat, byte)))> {
    Then(ONE, Then(U32, Then(U32, U8)))
  }

  lemma {:induction false} SchemeRoundTrips(k: nat, m: nat, w: byte)
    requires k < TWO32 && m < TWO32
    ensures RoundTrips(SchemeCodec(), ((), (k, (m, w))))
  {
    OneRoundTrips();
    U32RoundTrips(k);
    U32RoundTrips(m);
    U8RoundTrips(w);
    ThenRoundTrips(U32, U8, m, w);
    ThenRoundTrips(U32, Then(U32, U8), k, (m, w));
    ThenRoundTrips(ONE, Then(U32, Then(U32, U8)), (), (k, (m, w)));
  }
}
