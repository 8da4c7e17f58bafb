/** `download_object_generic''`: the whole object, chunk by chunk, cut to the object's size. */
module FullDownload {
  import opened Sequences
  import opened Bytes
  import opened Llio
  import opened ManifestFields
  import opened ObjectBytes
  import opened ReadPath

  // a shared buffer that download_chunk handed over
  datatype Buffer = Buffer(id: nat, bytes: seq<bv8>)

  // what download_chunk returned: the data fragments and the coding fragments
  datatype Chunk = Chunk(data: seq<Buffer>, coding: seq<Buffer>)

  // The state of the fold.  `hashed` is what the hash object has seen, `released` the buffers whose
  // usage was unregistered, `writes` counts the calls of write_object_data.
  datatype State = State(ok: bool, offset: int, written: seq<bv8>, hashed: seq<bv8>, released: seq<nat>, writes: nat)

  const START := State(true, 0, [], [], [], 0)

  // how much of a fragment belongs to the object
  function Cut(offset: int, fragmentSize: nat, objectSize: nat): int {
    if offset + fragmentSize < objectSize then fragmentSize else objectSize - offset
  }

  // Hash the fragment, then write it; write number `fails` raises.
  function WriteOne(s: State, b: Buffer, fragmentSize: nat, objectSize: nat, fails: Option<nat>): State {
    var n := Cut(s.offset, fragmentSize, objectSize);
    if n < 0 || n > |b.bytes| then s.(ok := false)
    else
      var hashed := s.hashed + b.bytes[..n];
      if fails == Some(s.writes) then s.(ok := false, hashed := hashed)
      else s.(offset := s.offset + n, written := s.written + b.bytes[..n], hashed := hashed, writes := s.writes + 1)
  }

  function WriteAll(s: State, bs: seq<Buffer>, fragmentSize: nat, objectSize: nat, fails: Option<nat>): State
    decreases |bs|
  {
    if bs == [] || !s.ok then s
    else WriteAll(WriteOne(s, bs[0], fragmentSize, objectSize, fails), bs[1..], fragmentSize, objectSize, fails)
  }

  function Ids(bs: seq<Buffer>): (r: seq<nat>)
    ensures |r| == |bs|
  {
    seq(|bs|, i requires 0 <= i < |bs| => bs[i].id)
  }

  // the buffers are given back whether writing succeeded or not
  function OneChunk(s: State, c: Chunk, chunkSize: nat, k: nat, objectSize: nat, fails: Option<nat>): State
    requires k > 0
  {
    var r := WriteAll(s, c.data, chunkSize / k, objectSize, fails);
    r.(released := r.released + Ids(c.data) + Ids(c.coding))
  }

  // chunks[i] is None when download_chunk failed for chunk i
  function Download(s: State, chunks: seq<Option<Chunk>>, sizes: seq<nat>, k: nat, objectSize: nat,
                    fails: Option<nat>): State
    requires k > 0 && |chunks| == |sizes|
    decreases |chunks|
  {
    if chunks == [] || !s.ok then s
    else if chunks[0].None? then s.(ok := false)
    else Download(OneChunk(s, chunks[0].value, sizes[0], k, objectSize, fails), chunks[1..], sizes[1..], k,
                  objectSize, fails)
  }

  // the manifest's checksum is compared with that of the hashed bytes
  predicate Succeeds(s: State, hash: seq<bv8> -> Checksum, m: Manifest) {
    s.ok && hash(s.hashed) == m.checksum
  }

  // ------------------------------------------------------------------
  // What is written
  // ------------------------------------------------------------------

  function Min(a: nat, b: nat): nat { if a < b then a else b }

  // everything in front of `pos` of the content is written, up to the object's size
  ghost predicate At(s: State, content: seq<bv8>, pos: nat, objectSize: nat) {
    && s.ok && pos <= |content|
    && s.offset == Min(pos, objectSize) && s.written == content[..Min(pos, objectSize)] && s.hashed == s.written
  }

  lemma {:induction false} WriteOneAdvances(s: State, b: Buffer, objectSize: nat, content: seq<bv8>, pos: nat)
    requires At(s, content, pos, objectSize) && pos + |b.bytes| <= |content| && content[pos..pos + |b.bytes|] == b.bytes
    ensures At(WriteOne(s, b, |b.bytes|, objectSize, None), content, pos + |b.bytes|, objectSize)
    ensures WriteOne(s, b, |b.bytes|, objectSize, None).released == s.released
  {
    var n := Cut(s.offset, |b.bytes|, objectSize);
    var end := Min(pos + |b.bytes|, objectSize);
    if pos <= objectSize {
      assert n == end - pos;
      CutExtends(content, pos, b.bytes, n);
    } else {
      assert n == 0;
      assert b.bytes[..0] == [];
    }
  }

  lemma {:induction false} CutExtends(content: seq<bv8>, pos: nat, part: seq<bv8>, n: nat)
    requires pos + |part| <= |content| && content[pos..pos + |part|] == part && n <= |part|
    ensures content[..pos] + part[..n] == content[..pos + n]
  {
    assert forall i :: 0 <= i < |part| ==> part[i] == content[pos..pos + |part|][i] == content[pos + i];
  }

  // the data fragments of chunk c, in buffers
  ghost predicate Carries(bs: seq<Buffer>, d: FragmentData, c: nat, k: nat) {
    |bs| == k && forall f :: 0 <= f < k ==> bs[f].bytes == d(c, f)
  }

  lemma {:induction false} WriteAllAdvances(s: State, bs: seq<Buffer>, f: nat, d: FragmentData, c: nat, k: nat,
                                            l: nat, objectSize: nat, content: seq<bv8>, start: nat)
    requires f <= k && Carries(bs, d, c, k) && forall g: nat :: g < k ==> |d(c, g)| == l
    requires start + |ChunkBytes(d, c, k)| <= |content|
             && content[start..start + |ChunkBytes(d, c, k)|] == ChunkBytes(d, c, k)
    requires At(s, content, start + f * l, objectSize)
    ensures At(WriteAll(s, bs[f..], l, objectSize, None), content, start + k * l, objectSize)
    ensures WriteAll(s, bs[f..], l, objectSize, None).released == s.released
    decreases k - f
  {
    if f < k {
      FragmentInChunk(content, start, d, c, k, l, f);
      WriteOneAdvances(s, bs[f], objectSize, content, start + f * l);
      MulStep(f + 1, l);
      assert bs[f..][0] == bs[f] && bs[f..][1..] == bs[f + 1..];
      WriteAllAdvances(WriteOne(s, bs[f], l, objectSize, None), bs, f + 1, d, c, k, l, objectSize, content, start);
    }
  }

  // every chunk was downloaded and holds its data fragments
  ghost predicate Genuine(chunks: seq<Option<Chunk>>, d: FragmentData, m: Manifest) {
    |chunks| == |m.chunkSizes| && forall c :: 0 <= c < |chunks| ==>
        chunks[c].Some? && Carries(chunks[c].value.data, d, c, m.scheme.k)
  }

  lemma {:induction false} ChunkInContent(d: FragmentData, m: Manifest, c: nat)
    requires LaidOut(d, m) && c < |m.chunkSizes|
    ensures var k, l, start := m.scheme.k, |d(c, 0)|, Before(m.chunkSizes, c);
            && k > 0 && m.chunkSizes[c] / k == l && start + k * l == Before(m.chunkSizes, c + 1)
            && (forall g: nat :: g < k ==> |d(c, g)| == l)
            && start + |ChunkBytes(d, c, k)| <= |Content(d, m)|
            && Content(d, m)[start..start + |ChunkBytes(d, c, k)|] == ChunkBytes(d, c, k)
  {
    var k, l := m.scheme.k, |d(c, 0)|;
    LaidOutChunk(d, m, c);
    ChunkBytesLength(d, c, k, l);
    AllChunksAt(d, k, m.chunkSizes, |m.chunkSizes|, c);
    hide ChunkBytes, AllChunks;
  }

  lemma {:induction false} OneChunkAdvances(s: State, chunk: Chunk, d: FragmentData, m: Manifest, c: nat,
                                            objectSize: nat)
    requires LaidOut(d, m) && c < |m.chunkSizes| && Carries(chunk.data, d, c, m.scheme.k)
    requires At(s, Content(d, m), Before(m.chunkSizes, c), objectSize)
    ensures At(OneChunk(s, chunk, m.chunkSizes[c], m.scheme.k, objectSize, None), Content(d, m),
               Before(m.chunkSizes, c + 1), objectSize)
  {
    hide At, LaidOut, Content, ChunkBytes, Carries, WriteAll, Before;
    var k, l := m.scheme.k, |d(c, 0)|;
    ChunkInContent(d, m, c);
    assert chunk.data[0..] == chunk.data;
    WriteAllAdvances(s, chunk.data, 0, d, c, k, l, objectSize, Content(d, m), Before(m.chunkSizes, c));
    ReleaseKeepsAt(WriteAll(s, chunk.data, l, objectSize, None), Content(d, m), Before(m.chunkSizes, c) + k * l,
                   objectSize, Ids(chunk.data), Ids(chunk.coding));
  }

  lemma {:induction false} ReleaseKeepsAt(s: State, content: seq<bv8>, pos: nat, objectSize: nat, a: seq<nat>,
                                          b: seq<nat>)
    requires At(s, content, pos, objectSize)
    ensures At(s.(released := s.released + a + b), content, pos, objectSize)
  {
  }

  // the fold takes the chunk it stands at
  lemma {:induction false} DownloadTakes(s: State, chunks: seq<Option<Chunk>>, sizes: seq<nat>, c: nat, k: nat,
                                         objectSize: nat, fails: Option<nat>)
    requires k > 0 && |chunks| == |sizes| && c < |chunks| && s.ok && chunks[c].Some?
    ensures Download(s, chunks[c..], sizes[c..], k, objectSize, fails)
         == Download(OneChunk(s, chunks[c].value, sizes[c], k, objectSize, fails), chunks[c + 1..], sizes[c + 1..],
                     k, objectSize, fails)
  {
    hide OneChunk;
    assert chunks[c..][0] == chunks[c] && chunks[c..][1..] == chunks[c + 1..];
    assert sizes[c..][0] == sizes[c] && sizes[c..][1..] == sizes[c + 1..];
  }

  // and returns what it has when it stands at the end
  lemma {:induction false} DownloadEnds(s: State, chunks: seq<Option<Chunk>>, sizes: seq<nat>, k: nat,
                                        objectSize: nat, fails: Option<nat>)
    requires k > 0 && |chunks| == |sizes|
    ensures Download(s, chunks[|chunks|..], sizes[|chunks|..], k, objectSize, fails) == s
            && Total(sizes) == Before(sizes, |chunks|)
  {
    assert chunks[|chunks|..] == [];
  }

  lemma {:induction false} GenuineAt(s: State, chunks: seq<Option<Chunk>>, d: FragmentData, m: Manifest, c: nat,
                                     objectSize: nat)
    requires LaidOut(d, m) && Genuine(chunks, d, m) && c <= |chunks|
    requires At(s, Content(d, m), Before(m.chunkSizes, c), objectSize)
    ensures s.ok && m.scheme.k > 0 && |chunks| == |m.chunkSizes|
    ensures c < |chunks| ==> chunks[c].Some? && Carries(chunks[c].value.data, d, c, m.scheme.k)
  {
    hide Content, Before, Carries, ChunksSized;
  }

  lemma {:induction false} DownloadAdvances(s: State, chunks: seq<Option<Chunk>>, d: FragmentData, m: Manifest,
                                            c: nat, objectSize: nat)
    requires LaidOut(d, m) && Genuine(chunks, d, m) && c <= |chunks|
    requires At(s, Content(d, m), Before(m.chunkSizes, c), objectSize)
    ensures At(Download(s, chunks[c..], m.chunkSizes[c..], m.scheme.k, objectSize, None), Content(d, m),
               Total(m.chunkSizes), objectSize)
    decreases |chunks| - c
  {
    hide *;
    GenuineAt(s, chunks, d, m, c, objectSize);
    if c < |chunks| {
      OneChunkAdvances(s, chunks[c].value, d, m, c, objectSize);
      DownloadTakes(s, chunks, m.chunkSizes, c, m.scheme.k, objectSize, None);
      DownloadAdvances(OneChunk(s, chunks[c].value, m.chunkSizes[c], m.scheme.k, objectSize, None), chunks, d, m,
                       c + 1, objectSize);
    } else {
      DownloadEnds(s, chunks, m.chunkSizes, m.scheme.k, objectSize, None);
    }
  }

  function DownloadObject(chunks: seq<Option<Chunk>>, m: Manifest, fails: Option<nat>): State
    requires m.scheme.k > 0 && |chunks| == |m.chunkSizes|
  {
    Download(START, chunks, m.chunkSizes, m.scheme.k, m.size, fails)
  }

  /** A download that no call fails writes and hashes the content up to the object's size; it is
      exactly the object's size long if and only if the chunks hold that much, and it succeeds if and
      only if the checksum is that of the bytes written. */
  lemma {:induction false} DownloadWritesObject(chunks: seq<Option<Chunk>>, d: FragmentData, m: Manifest,
                                                hash: seq<bv8> -> Checksum)
    requires LaidOut(d, m) && Genuine(chunks, d, m)
    ensures |Content(d, m)| == Total(m.chunkSizes)
    ensures var s := DownloadObject(chunks, m, None);
            && s.written == s.hashed == Content(d, m)[..Min(Total(m.chunkSizes), m.size)]
            && (|s.written| == m.size <==> m.size <= Total(m.chunkSizes))
            && (Succeeds(s, hash, m) <==> hash(s.written) == m.checksum)
  {
    LaidOutIsSized(d, m);
    ContentLength(d, m);
    assert chunks[0..] == chunks && m.chunkSizes[0..] == m.chunkSizes;
    DownloadAdvances(START, chunks, d, m, 0, m.size);
  }

  // ------------------------------------------------------------------
  // Downloads in which calls fail
  // ------------------------------------------------------------------

  // Still going, everything in front of `pos` is written; stopped, a beginning of the object is.
  ghost predicate SafeAt(s: State, content: seq<bv8>, pos: nat, objectSize: nat) {
    if s.ok then At(s, content, pos, objectSize)
    else s.written <= content && |s.written| <= objectSize
  }

  lemma {:induction false} WriteOneSafe(s: State, b: Buffer, objectSize: nat, content: seq<bv8>, pos: nat,
                                        fails: Option<nat>)
    requires At(s, content, pos, objectSize) && pos + |b.bytes| <= |content| && content[pos..pos + |b.bytes|] == b.bytes
    ensures SafeAt(WriteOne(s, b, |b.bytes|, objectSize, fails), content, pos + |b.bytes|, objectSize)
  {
    WriteOneAdvances(s, b, objectSize, content, pos);
  }

  lemma {:induction false} WriteAllSafe(s: State, bs: seq<Buffer>, f: nat, d: FragmentData, c: nat, k: nat, l: nat,
                                        objectSize: nat, content: seq<bv8>, start: nat, fails: Option<nat>)
    requires f <= k && Carries(bs, d, c, k) && forall g: nat :: g < k ==> |d(c, g)| == l
    requires start + |ChunkBytes(d, c, k)| <= |content|
             && content[start..start + |ChunkBytes(d, c, k)|] == ChunkBytes(d, c, k)
    requires SafeAt(s, content, start + f * l, objectSize)
    ensures SafeAt(WriteAll(s, bs[f..], l, objectSize, fails), content, start + k * l, objectSize)
    decreases k - f
  {
    if f < k && s.ok {
      FragmentInChunk(content, start, d, c, k, l, f);
      WriteOneSafe(s, bs[f], objectSize, content, start + f * l, fails);
      MulStep(f + 1, l);
      assert bs[f..][0] == bs[f] && bs[f..][1..] == bs[f + 1..];
      WriteAllSafe(WriteOne(s, bs[f], l, objectSize, fails), bs, f + 1, d, c, k, l, objectSize, content, start, fails);
    }
  }

  lemma {:induction false} OneChunkSafe(s: State, chunk: Chunk, d: FragmentData, m: Manifest, c: nat,
                                        objectSize: nat, fails: Option<nat>)
    requires LaidOut(d, m) && c < |m.chunkSizes| && Carries(chunk.data, d, c, m.scheme.k)
    requires SafeAt(s, Content(d, m), Before(m.chunkSizes, c), objectSize)
    ensures SafeAt(OneChunk(s, chunk, m.chunkSizes[c], m.scheme.k, objectSize, fails), Content(d, m),
                   Before(m.chunkSizes, c + 1), objectSize)
  {
    var k, l := m.scheme.k, |d(c, 0)|;
    LaidOutChunk(d, m, c);
    ChunkBytesLength(d, c, k, l);
    AllChunksAt(d, k, m.chunkSizes, |m.chunkSizes|, c);
    assert chunk.data[0..] == chunk.data;
    hide LaidOut, Content;
    WriteAllSafe(s, chunk.data, 0, d, c, k, l, objectSize, Content(d, m), Before(m.chunkSizes, c), fails);
  }

  // the chunks that were downloaded hold their data fragments
  ghost predicate PartlyGenuine(chunks: seq<Option<Chunk>>, d: FragmentData, m: Manifest) {
    |chunks| == |m.chunkSizes| && forall c :: 0 <= c < |chunks| && chunks[c].Some? ==>
        Carries(chunks[c].value.data, d, c, m.scheme.k)
  }

  lemma {:induction false} PartlyGenuineAt(chunks: seq<Option<Chunk>>, d: FragmentData, m: Manifest, c: nat)
    requires LaidOut(d, m) && PartlyGenuine(chunks, d, m)
    ensures m.scheme.k > 0 && |chunks| == |m.chunkSizes|
    ensures c < |chunks| && chunks[c].Some? ==> Carries(chunks[c].value.data, d, c, m.scheme.k)
  {
    hide Carries, ChunksSized;
  }

  // the fold stops at a chunk that was not downloaded
  lemma {:induction false} DownloadStops(s: State, chunks: seq<Option<Chunk>>, sizes: seq<nat>, c: nat, k: nat,
                                         objectSize: nat, fails: Option<nat>)
    requires k > 0 && |chunks| == |sizes| && c < |chunks| && (!s.ok || chunks[c].None?)
    ensures Download(s, chunks[c..], sizes[c..], k, objectSize, fails) == s.(ok := false)
  {
    hide OneChunk;
    assert chunks[c..][0] == chunks[c];
  }

  lemma {:induction false} StoppedIsSafe(s: State, content: seq<bv8>, pos: nat, objectSize: nat, later: nat)
    requires SafeAt(s, content, pos, objectSize)
    ensures SafeAt(s.(ok := false), content, later, objectSize)
  {
  }

  lemma {:induction false} DownloadSafe(s: State, chunks: seq<Option<Chunk>>, d: FragmentData, m: Manifest, c: nat,
                                        objectSize: nat, fails: Option<nat>)
    requires LaidOut(d, m) && PartlyGenuine(chunks, d, m) && c <= |chunks|
    requires SafeAt(s, Content(d, m), Before(m.chunkSizes, c), objectSize)
    ensures SafeAt(Download(s, chunks[c..], m.chunkSizes[c..], m.scheme.k, objectSize, fails), Content(d, m),
                   Total(m.chunkSizes), objectSize)
    decreases |chunks| - c
  {
    hide *;
    PartlyGenuineAt(chunks, d, m, c);
    if c == |chunks| {
      DownloadEnds(s, chunks, m.chunkSizes, m.scheme.k, objectSize, fails);
    } else if s.ok && chunks[c].Some? {
      OneChunkSafe(s, chunks[c].value, d, m, c, objectSize, fails);
      DownloadTakes(s, chunks, m.chunkSizes, c, m.scheme.k, objectSize, fails);
      DownloadSafe(OneChunk(s, chunks[c].value, m.chunkSizes[c], m.scheme.k, objectSize, fails), chunks, d, m, c + 1,
                   objectSize, fails);
    } else {
      DownloadStops(s, chunks, m.chunkSizes, c, m.scheme.k, objectSize, fails);
      StoppedIsSafe(s, Content(d, m), Before(m.chunkSizes, c), objectSize, Total(m.chunkSizes));
    }
  }

  /** Whatever fails, only a beginning of the object has been written; and a download that succeeds
      has written all of it. */
  lemma {:induction false} FailedDownloadWroteABeginning(chunks: seq<Option<Chunk>>, d: FragmentData, m: Manifest,
                                                         fails: Option<nat>, hash: seq<bv8> -> Checksum)
    requires LaidOut(d, m) && PartlyGenuine(chunks, d, m)
    ensures var s := DownloadObject(chunks, m, fails);
            && s.written <= Content(d, m) && |s.written| <= m.size
            && (Succeeds(s, hash, m) ==>
                  |s.written| == Min(Total(m.chunkSizes), m.size) && hash(s.written) == m.checksum)
  {
    LaidOutIsSized(d, m);
    ContentLength(d, m);
    assert chunks[0..] == chunks && m.chunkSizes[0..] == m.chunkSizes;
    DownloadSafe(START, chunks, d, m, 0, m.size, fails);
  }

  // ------------------------------------------------------------------
  // Buffers
  // ------------------------------------------------------------------

  function AllIds(chunks: seq<Chunk>): seq<nat> {
    if chunks == [] then [] else Ids(chunks[0].data) + Ids(chunks[0].coding) + AllIds(chunks[1..])
  }

  // the chunks that download_chunk handed over before the fold stopped
  function HandedOver(s: State, chunks: seq<Option<Chunk>>, sizes: seq<nat>, k: nat, objectSize: nat,
                      fails: Option<nat>): seq<Chunk>
    requires k > 0 && |chunks| == |sizes|
    decreases |chunks|
  {
    if chunks == [] || !s.ok || chunks[0].None? then []
    else
      [chunks[0].value]
      + HandedOver(OneChunk(s, chunks[0].value, sizes[0], k, objectSize, fails), chunks[1..], sizes[1..], k,
                   objectSize, fails)
  }

  lemma {:induction false} WriteAllReleasesNothing(s: State, bs: seq<Buffer>, fragmentSize: nat, objectSize: nat,
                                                   fails: Option<nat>)
    ensures WriteAll(s, bs, fragmentSize, objectSize, fails).released == s.released
    decreases |bs|
  {
    if bs != [] && s.ok {
      WriteAllReleasesNothing(WriteOne(s, bs[0], fragmentSize, objectSize, fails), bs[1..], fragmentSize, objectSize,
                              fails);
    }
  }

  lemma {:induction false} ReleasesHandedOver(s: State, chunks: seq<Option<Chunk>>, sizes: seq<nat>, k: nat,
                                              objectSize: nat, fails: Option<nat>)
    requires k > 0 && |chunks| == |sizes|
    ensures Download(s, chunks, sizes, k, objectSize, fails).released
         == s.released + AllIds(HandedOver(s, chunks, sizes, k, objectSize, fails))
    decreases |chunks|
  {
    if chunks == [] || !s.ok || chunks[0].None? {
      AppendNothing(s.released);
    } else {
      var c := chunks[0].value;
      var t := OneChunk(s, c, sizes[0], k, objectSize, fails);
      var more := HandedOver(t, chunks[1..], sizes[1..], k, objectSize, fails);
      WriteAllReleasesNothing(s, c.data, sizes[0] / k, objectSize, fails);
      ReleasesHandedOver(t, chunks[1..], sizes[1..], k, objectSize, fails);
      assert ([c] + more)[1..] == more;
      assert s.released + Ids(c.data) + Ids(c.coding) + AllIds(more)
             == s.released + (Ids(c.data) + Ids(c.coding) + AllIds(more));
    }
  }

  /** Every buffer that was handed over is given back exactly once, in any outcome. */
  lemma {:induction false} BuffersReleasedOnce(chunks: seq<Option<Chunk>>, m: Manifest, fails: Option<nat>)
    requires m.scheme.k > 0 && |chunks| == |m.chunkSizes|
    ensures DownloadObject(chunks, m, fails).released
         == AllIds(HandedOver(START, chunks, m.chunkSizes, m.scheme.k, m.size, fails))
  {
    ReleasesHandedOver(START, chunks, m.chunkSizes, m.scheme.k, m.size, fails);
    assert [] + AllIds(HandedOver(START, chunks, m.chunkSizes, m.scheme.k, m.size, fails))
        == AllIds(HandedOver(START, chunks, m.chunkSizes, m.scheme.k, m.size, fails));
  }

  // ------------------------------------------------------------------
  // Partial and full reads agree
  // ------------------------------------------------------------------

  lemma {:induction false} WantedOfPrefix(a: seq<bv8>, b: seq<bv8>, slices: seq<SliceDescriptor>)
    requires a <= b && Inside(a, slices)
    ensures Wanted(a, slices) == Wanted(b, slices)
    decreases |slices|
  {
    if slices != [] {
      var s := slices[|slices| - 1];
      SliceOfPrefix(a, b, s.offset, s.size);
      WantedOfPrefix(a, b, slices[..|slices| - 1]);
    }
  }

  // the slices lie inside the object, and the object inside its chunks
  predicate SlicesInside(m: Manifest, slices: seq<SliceDescriptor>) {
    m.size <= Total(m.chunkSizes) && forall i :: 0 <= i < |slices| ==> slices[i].offset + slices[i].size <= m.size
  }

  /** For one manifest: pieces that deliver slices inside the object deliver exactly those slices of
      what the full download writes, with a padded last chunk too. */
  lemma {:induction false} PartialReadIsSliceOfDownload(w: World, level: nat, mf: Mf, last: nat, ps: seq<Piece>,
                                                        slices: seq<SliceDescriptor>, chunks: seq<Option<Chunk>>)
    requires Known(w, level, mf) && Genuine(chunks, DataOf(w, level, mf), mf.m) && SlicesInside(mf.m, slices)
    requires Delivered(w, last, ps) == Wanted(ObjectOf(w, level, mf), slices)
    ensures |DownloadObject(chunks, mf.m, None).written| == mf.m.size
    ensures Delivered(w, last, ps) == Wanted(DownloadObject(chunks, mf.m, None).written, slices)
  {
    DownloadWritesObject(chunks, DataOf(w, level, mf), mf.m, x => NoChecksum);
    WantedOfPrefix(DownloadObject(chunks, mf.m, None).written, ObjectOf(w, level, mf), slices);
  }

  // the chunks are those of the found manifest, and the slices lie inside its object
  ghost predicate AsksDownload(w: World, level: nat, mf: Mf, slices: seq<SliceDescriptor>,
                               chunks: seq<Option<Chunk>>) {
    Genuine(chunks, DataOf(w, level, mf), mf.m) && SlicesInside(mf.m, slices)
  }

  // the pieces deliver exactly these slices of what the download writes, which is as long as the object
  ghost predicate DeliversDownload(w: World, last: nat, ps: seq<Piece>, m: Manifest, slices: seq<SliceDescriptor>,
                                   chunks: seq<Option<Chunk>>) {
    && m.scheme.k > 0 && |chunks| == |m.chunkSizes|
    && var written := DownloadObject(chunks, m, None).written;
       |written| == m.size && Delivered(w, last, ps) == Wanted(written, slices)
  }

  lemma {:induction false} AskedFits(w: World, levels: nat, t: nat, level: nat, name: seq<byte>,
                                     slices: seq<SliceDescriptor>, chunks: seq<Option<Chunk>>)
    requires Consistent(w, levels)
    requires w.find(t, level, name).Some? ==> AsksDownload(w, level, w.find(t, level, name).value, slices, chunks)
    ensures FoundFits(w, t, level, name, slices)
  {
    if w.find(t, level, name).Some? {
      var mf := w.find(t, level, name).value;
      assert Known(w, level, mf);
      hide Consistent, Genuine;
      LaidOutIsSized(DataOf(w, level, mf), mf.m);
      ContentLength(DataOf(w, level, mf), mf.m);
    }
  }

  lemma {:induction false} ResolvedIsDownload(w: World, last: nat, level: nat, mf: Mf, ps: seq<Piece>,
                                              slices: seq<SliceDescriptor>, chunks: seq<Option<Chunk>>)
    requires Known(w, level, mf) && AsksDownload(w, level, mf, slices, chunks)
    requires Delivered(w, last, ps) == Wanted(ObjectOf(w, level, mf), slices)
    ensures DeliversDownload(w, last, ps, mf.m, slices, chunks)
  {
    assert mf.m.scheme.k > 0 && |chunks| == |mf.m.chunkSizes|;
    hide Known, Genuine, DownloadObject, Delivered, Wanted, ObjectOf, SlicesInside;
    PartialReadIsSliceOfDownload(w, level, mf, last, ps, slices, chunks);
  }

  lemma {:induction false} FoundIsKnown(w: World, levels: nat, t: nat, level: nat, name: seq<byte>)
    requires Consistent(w, levels) && w.find(t, level, name).Some?
    ensures Known(w, level, w.find(t, level, name).value)
  {
  }

  /** The direct read itself, through any number of levels: whatever it resolves delivers exactly the
      requested slices of what the full download of the manifest that it found writes. */
  method ResolveSlicesOfDownload(w: World, t: nat, levels: nat, level: nat, name: seq<byte>,
                                 slices: seq<SliceDescriptor>, ghost chunks: seq<Option<Chunk>>)
    returns (r: Option<seq<Piece>>, t': nat)
    requires level < levels && Consistent(w, levels)
    requires w.find(t, level, name).Some? ==> AsksDownload(w, level, w.find(t, level, name).value, slices, chunks)
    ensures r.None? ==> Missed(w, t, t', levels, level, name, slices)
    ensures r.Some? ==>
              && w.find(t, level, name).Some?
              && DeliversDownload(w, levels - 1, r.value, w.find(t, level, name).value.m, slices, chunks)
  {
    hide *;
    AskedFits(w, levels, t, level, name, slices, chunks);
    r, t' := ResolveManyLevels(w, t, levels, level, name, slices);
    if r.Some? {
      FoundIsKnown(w, levels, t, level, name);
      ResolvedIsDownload(w, levels - 1, level, w.find(t, level, name).value, r.value, slices, chunks);
    }
  }
}
