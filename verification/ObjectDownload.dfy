/** The download of an object from its fragments: the races of all its chunks, the decoder, and the
    fold that writes what the decoder restored. */
module ObjectDownload {
  import opened Sequences
  import opened ManifestFields
  import opened ObjectBytes
  import Race = ChunkDownload
  import Decode = ChunkDecode
  import Fold = FullDownload

  type Buf = Race.Buf

  // One call of download_chunk: its strategy, how its fetches ended and in which order, and what
  // happened to be in the buffers created for missing fragments.
  datatype ChunkRun = ChunkRun(strategy: Race.Strategy, preferred: set<nat>, events: seq<Race.Event>,
                               scratch: nat -> seq<bv8>)

  function EntriesOf(fragments: seq<Fragment>): seq<Race.Entry> {
    seq(|fragments|, i requires 0 <= i < |fragments| => Race.Entry(fragments[i].loc.0, fragments[i].loc.1))
  }

  function PlanOf(m: Manifest, c: nat, r: ChunkRun): Race.Plan
    requires c < |m.fragments|
  {
    Race.MakePlan(r.strategy, EntriesOf(m.fragments[c]), m.scheme.k, m.scheme.m, r.preferred)
  }

  // the chunk's data fragments
  function DataOfChunk(d: FragmentData, c: nat, k: nat): seq<seq<bv8>> {
    seq(k, f requires 0 <= f < k => d(c, f))
  }

  // the length of some fragment that arrived
  ghost function FragmentSize(frags: map<nat, Buf>): nat {
    if frags == map[] then 0 else var i :| i in frags; |frags[i]|
  }

  /** What download_chunk comes to: the decoded data fragments, or an exception. */
  ghost function Outcome(code: Decode.Code, m: Manifest, c: nat, r: ChunkRun): Option<seq<Buf>>
    requires c < |m.fragments|
  {
    var p, k := PlanOf(m, c, r), m.scheme.k;
    if !Race.LatchesOk(p) || !Race.Runs(Race.Start(p), r.events, k) then None
    else
      var t := Race.After(Race.Start(p), r.events, k);
      if !t.outcome.Gathering? then None
      else
        match Decode.GatherAll(t.fragments, r.scratch, FragmentSize(t.fragments), k, m.scheme.m)
        case None => None
        case Some(g) => Some(code.decode(g.erasures, g.data, g.coding))
  }

  // A run as it can happen: fetches that end well give the encoded fragments, and buffers for
  // missing fragments are as long as the fragments.
  ghost predicate CanHappen(code: Decode.Code, d: FragmentData, m: Manifest, c: nat, r: ChunkRun) {
    && Decode.Genuine(r.events, code.encode(DataOfChunk(d, c, m.scheme.k)))
    && forall i :: |r.scratch(i)| == |d(c, 0)|
  }

  // the race was won by the success latch
  ghost predicate Won(m: Manifest, c: nat, r: ChunkRun)
    requires c < |m.fragments|
  {
    var p, k := PlanOf(m, c, r), m.scheme.k;
    && Race.LatchesOk(p) && Race.Runs(Race.Start(p), r.events, k)
    && Race.After(Race.Start(p), r.events, k).outcome.Gathering?
  }

  lemma {:induction false} SomeSize(frags: map<nat, Buf>, word: seq<Buf>, size: nat)
    requires frags != map[] && Decode.AllOfSize(word, size)
    requires forall i :: i in frags ==> i < |word| && frags[i] == word[i]
    ensures FragmentSize(frags) == size
  {
  }

  lemma {:induction false} DataIsEven(d: FragmentData, m: Manifest, c: nat)
    requires LaidOut(d, m) && c < |m.chunkSizes|
    ensures Decode.AllOfSize(DataOfChunk(d, c, m.scheme.k), |d(c, 0)|)
  {
  }

  lemma {:induction false} NotEmpty(frags: map<nat, Buf>, k: nat)
    requires |frags| >= k > 0
    ensures frags != map[]
  {
  }

  /** Every order of outcomes: a race that is won gives the chunk's data fragments, any other nothing. */
  lemma {:induction false} WonGivesTheData(code: Decode.Code, d: FragmentData, m: Manifest, c: nat, r: ChunkRun)
    requires LaidOut(d, m) && c < |m.fragments| && Decode.IsMds(code, m.scheme.k, m.scheme.m)
             && CanHappen(code, d, m, c, r)
    ensures Outcome(code, m, c, r) == if Won(m, c, r) then Some(DataOfChunk(d, c, m.scheme.k)) else None
  {
    if Won(m, c, r) {
      var p, k, size := PlanOf(m, c, r), m.scheme.k, |d(c, 0)|;
      var data := DataOfChunk(d, c, k);
      var t := Race.After(Race.Start(p), r.events, k);
      Race.PlanTargets(r.strategy, EntriesOf(m.fragments[c]), k, m.scheme.m, r.preferred);
      DataIsEven(d, m, c);
      assert k > 0;
      hide LaidOut, Decode.GatherAll, Race.Runs, Race.After, DataOfChunk, PlanOf;
      Decode.ChunkIsRestored(code, p, r.events, k, m.scheme.m, data, size, r.scratch);
      SizeOfArrived(code, p, r.events, k, m.scheme.m, data, size);
    }
  }

  lemma {:induction false} SizeOfArrived(code: Decode.Code, p: Race.Plan, es: seq<Race.Event>, k: nat, m: nat,
                                         data: seq<Buf>, size: nat)
    requires Race.LatchesOk(p) && Race.DistinctIds(p.targets) && Race.Runs(Race.Start(p), es, k) && k > 0
    requires Decode.IsMds(code, k, m) && |data| == k && Decode.AllOfSize(data, size)
             && Decode.Genuine(es, code.encode(data))
    requires Race.After(Race.Start(p), es, k).outcome.Gathering?
    ensures FragmentSize(Race.After(Race.Start(p), es, k).fragments) == size
  {
    Decode.CollectedAreGenuine(Race.Start(p), es, k, code.encode(data));
    Race.RunFacts(p, es, k);
    var frags := Race.After(Race.Start(p), es, k).fragments;
    NotEmpty(frags, k);
    SomeSize(frags, code.encode(data), size);
  }

  // the buffers handed over hold what the decoder restored; no chunk comes of an exception
  ghost predicate Handed(chunk: Option<Fold.Chunk>, data: Option<seq<Buf>>) {
    && (chunk.Some? <==> data.Some?)
    && (chunk.Some? ==> |chunk.value.data| == |data.value|
                        && forall f :: 0 <= f < |data.value| ==> chunk.value.data[f].bytes == data.value[f])
  }

  ghost predicate AllCanHappen(code: Decode.Code, d: FragmentData, m: Manifest, runs: seq<ChunkRun>,
                               chunks: seq<Option<Fold.Chunk>>) {
    && |runs| == |chunks| == |m.fragments|
    && forall c :: 0 <= c < |runs| ==>
        CanHappen(code, d, m, c, runs[c]) && Handed(chunks[c], Outcome(code, m, c, runs[c]))
  }

  lemma {:induction false} HandedIsGenuine(code: Decode.Code, d: FragmentData, m: Manifest, runs: seq<ChunkRun>,
                                           chunks: seq<Option<Fold.Chunk>>, c: nat)
    requires LaidOut(d, m) && Decode.IsMds(code, m.scheme.k, m.scheme.m) && AllCanHappen(code, d, m, runs, chunks)
             && c < |runs|
    ensures chunks[c].Some? <==> Won(m, c, runs[c])
    ensures chunks[c].Some? ==> Fold.Carries(chunks[c].value.data, d, c, m.scheme.k)
  {
    WonGivesTheData(code, d, m, c, runs[c]);
  }

  /** Whatever strategy every chunk is fetched with, and in whatever order the fetches of its
      fragments end, well or not: if every chunk's race is won, the object is written, exactly; and
      in any case, whatever else fails, only a beginning of it. */
  lemma {:induction false} DownloadFromFragments(code: Decode.Code, d: FragmentData, m: Manifest, runs: seq<ChunkRun>,
                                                 chunks: seq<Option<Fold.Chunk>>, fails: Option<nat>,
                                                 hash: seq<bv8> -> Checksum)
    requires LaidOut(d, m) && Decode.IsMds(code, m.scheme.k, m.scheme.m) && AllCanHappen(code, d, m, runs, chunks)
    ensures var s := Fold.DownloadObject(chunks, m, fails);
            s.written <= Content(d, m) && |s.written| <= m.size
    ensures |Content(d, m)| == Total(m.chunkSizes)
    ensures (forall c :: 0 <= c < |runs| ==> Won(m, c, runs[c])) && fails.None? && m.size <= Total(m.chunkSizes) ==>
              var s := Fold.DownloadObject(chunks, m, fails);
              s.written == Content(d, m)[..m.size] && (Fold.Succeeds(s, hash, m) <==> hash(s.written) == m.checksum)
  {
    forall c | 0 <= c < |runs|
      ensures chunks[c].Some? <==> Won(m, c, runs[c])
      ensures chunks[c].Some? ==> Fold.Carries(chunks[c].value.data, d, c, m.scheme.k)
    {
      HandedIsGenuine(code, d, m, runs, chunks, c);
    }
    assert Fold.PartlyGenuine(chunks, d, m);
    LaidOutIsSized(d, m);
    ContentLength(d, m);
    Fold.FailedDownloadWroteABeginning(chunks, d, m, fails, hash);
    if (forall c :: 0 <= c < |runs| ==> Won(m, c, runs[c])) && fails.None? {
      assert Fold.Genuine(chunks, d, m);
      Fold.DownloadWritesObject(chunks, d, m, hash);
    }
  }
}
