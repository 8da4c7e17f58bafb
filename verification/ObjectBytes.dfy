/** The bytes a manifest describes: the data fragments of its chunks, one after the other. */
module ObjectBytes {
  import opened Bytes
  import opened ManifestFields

  // data fragment f of chunk c
  type FragmentData = (nat, nat) -> seq<bv8>

  // the sum of the first n sizes
  function Before(sizes: seq<nat>, n: nat): nat
    requires n <= |sizes|
  {
    if n == 0 then 0 else Before(sizes, n - 1) + sizes[n - 1]
  }

  function Total(sizes: seq<nat>): nat {
    Before(sizes, |sizes|)
  }

  // the data fragments 0 .. n-1 of chunk c
  function ChunkBytes(d: FragmentData, c: nat, n: nat): seq<bv8> {
    if n == 0 then [] else ChunkBytes(d, c, n - 1) + d(c, n - 1)
  }

  // the chunks 0 .. n-1, padding included
  function AllChunks(d: FragmentData, k: nat, n: nat): seq<bv8> {
    if n == 0 then [] else AllChunks(d, k, n - 1) + ChunkBytes(d, n - 1, k)
  }

  function Content(d: FragmentData, m: Manifest): seq<bv8> {
    AllChunks(d, m.scheme.k, |m.chunkSizes|)
  }

  // k divides every chunk size, and every chunk lists at least its data fragments
  predicate WellFormed(m: Manifest) {
    && m.scheme.k > 0
    && |m.fragments| == |m.chunkSizes|
    && (forall c :: 0 <= c < |m.chunkSizes| ==> m.chunkSizes[c] < TWO32 && m.chunkSizes[c] % m.scheme.k == 0)
    && (forall c :: 0 <= c < |m.fragments| ==> |m.fragments[c]| >= m.scheme.k)
  }

  function FragmentLength(m: Manifest, c: nat): nat
    requires c < |m.chunkSizes| && m.scheme.k > 0
  {
    m.chunkSizes[c] / m.scheme.k
  }

  // the fragments have the lengths that the manifest's chunk sizes give them
  ghost predicate Sized(d: FragmentData, m: Manifest)
    requires m.scheme.k > 0
  {
    forall c: nat, f: nat :: c < |m.chunkSizes| && f < m.scheme.k ==> |d(c, f)| == FragmentLength(m, c)
  }

  function Slice<T>(s: seq<T>, offset: nat, len: nat): seq<T> {
    if offset + len <= |s| then s[offset..offset + len] else []
  }

  lemma {:induction false} MulStep(f: nat, l: nat)
    requires f > 0
    ensures f * l == (f - 1) * l + l
  {
  }

  // equally long fragments stand at the multiples of their length
  lemma {:induction false} ChunkBytesAt(d: FragmentData, c: nat, n: nat, l: nat, f: nat)
    requires forall g: nat :: g < n ==> |d(c, g)| == l
    requires f < n
    ensures f * l + l <= |ChunkBytes(d, c, n)|
    ensures ChunkBytes(d, c, n)[f * l..f * l + l] == d(c, f)
    decreases n
  {
    var front, last, at := ChunkBytes(d, c, n - 1), d(c, n - 1), f * l;
    assert ChunkBytes(d, c, n) == front + last;
    ChunkBytesLength(d, c, n - 1, l);
    hide ChunkBytes;
    if f < n - 1 {
      ChunkBytesAt(d, c, n - 1, l, f);
      SliceInFront(front, last, at, at + l);
    } else {
      SliceBehind(front, last);
    }
  }

  lemma {:induction false} ChunkBytesLength(d: FragmentData, c: nat, n: nat, l: nat)
    requires forall g: nat :: g < n ==> |d(c, g)| == l
    ensures |ChunkBytes(d, c, n)| == n * l
    decreases n
  {
    if n > 0 {
      ChunkBytesLength(d, c, n - 1, l);
      MulStep(n, l);
    }
  }

  lemma {:induction false} WholeFragments(m: Manifest, c: nat)
    requires WellFormed(m) && c < |m.chunkSizes|
    ensures m.scheme.k * FragmentLength(m, c) == m.chunkSizes[c]
  {
    assert m.chunkSizes[c] == m.chunkSizes[c] / m.scheme.k * m.scheme.k + m.chunkSizes[c] % m.scheme.k;
  }

  // the chunks have the sizes that are listed
  ghost predicate ChunksSized(d: FragmentData, k: nat, sizes: seq<nat>) {
    forall c :: 0 <= c < |sizes| ==> |ChunkBytes(d, c, k)| == sizes[c]
  }

  lemma {:induction false} ChunksAreSized(d: FragmentData, m: Manifest)
    requires WellFormed(m) && Sized(d, m)
    ensures ChunksSized(d, m.scheme.k, m.chunkSizes)
  {
    forall c | 0 <= c < |m.chunkSizes|
      ensures |ChunkBytes(d, c, m.scheme.k)| == m.chunkSizes[c]
    {
      ChunkBytesLength(d, c, m.scheme.k, FragmentLength(m, c));
      WholeFragments(m, c);
    }
  }

  lemma {:induction false} AllChunksLength(d: FragmentData, k: nat, sizes: seq<nat>, n: nat)
    requires ChunksSized(d, k, sizes) && n <= |sizes|
    ensures |AllChunks(d, k, n)| == Before(sizes, n)
    decreases n
  {
    if n > 0 {
      AllChunksLength(d, k, sizes, n - 1);
    }
  }

  lemma {:induction false} ContentLength(d: FragmentData, m: Manifest)
    requires WellFormed(m) && Sized(d, m)
    ensures |Content(d, m)| == Total(m.chunkSizes)
  {
    ChunksAreSized(d, m);
    AllChunksLength(d, m.scheme.k, m.chunkSizes, |m.chunkSizes|);
  }

  lemma {:induction false} SliceInFront<T>(a: seq<T>, b: seq<T>, i: nat, j: nat)
    requires i <= j <= |a|
    ensures (a + b)[i..j] == a[i..j]
  {
  }

  lemma {:induction false} SliceBehind<T>(a: seq<T>, b: seq<T>)
    ensures (a + b)[|a|..|a| + |b|] == b
  {
  }

  lemma {:induction false} SliceOfSlice<T>(s: seq<T>, from: nat, len: nat, i: nat, n: nat)
    requires from + len <= |s| && i + n <= len
    ensures s[from..from + len][i..i + n] == s[from + i..from + i + n]
  {
    var t := s[from..from + len];
    assert forall j :: 0 <= j < len ==> t[j] == s[from + j];
    assert forall j :: i <= j < i + n ==> t[i..i + n][j - i] == t[j];
  }

  lemma {:induction false} Nested<T>(s: seq<T>, from: nat, part: seq<T>, i: nat, piece: seq<T>)
    requires from + |part| <= |s| && s[from..from + |part|] == part
    requires i + |piece| <= |part| && part[i..i + |piece|] == piece
    ensures from + i + |piece| <= |s| && s[from + i..from + i + |piece|] == piece
  {
    SliceOfSlice(s, from, |part|, i, |piece|);
  }

  lemma {:induction false} AllChunksAt(d: FragmentData, k: nat, sizes: seq<nat>, n: nat, c: nat)
    requires ChunksSized(d, k, sizes) && c < n <= |sizes|
    ensures var start := Before(sizes, c);
            && start + sizes[c] <= |AllChunks(d, k, n)|
            && AllChunks(d, k, n)[start..start + sizes[c]] == ChunkBytes(d, c, k)
    decreases n
  {
    hide ChunkBytes;
    AllChunksLength(d, k, sizes, n - 1);
    if c < n - 1 {
      AllChunksAt(d, k, sizes, n - 1, c);
      var start := Before(sizes, c);
      SliceInFront(AllChunks(d, k, n - 1), ChunkBytes(d, n - 1, k), start, start + sizes[c]);
    } else {
      SliceBehind(AllChunks(d, k, n - 1), ChunkBytes(d, n - 1, k));
    }
  }

  lemma {:induction false} FragmentInChunk(all: seq<bv8>, from: nat, d: FragmentData, c: nat, k: nat, l: nat, f: nat)
    requires f < k && forall g: nat :: g < k ==> |d(c, g)| == l
    requires from + |ChunkBytes(d, c, k)| <= |all| && all[from..from + |ChunkBytes(d, c, k)|] == ChunkBytes(d, c, k)
    ensures from + f * l + l <= |all| && all[from + f * l..from + f * l + l] == d(c, f)
  {
    ChunkBytesAt(d, c, k, l, f);
    Nested(all, from, ChunkBytes(d, c, k), f * l, d(c, f));
  }

  // where data fragment f of chunk c begins
  function FragmentStart(m: Manifest, c: nat, f: nat): nat
    requires c < |m.chunkSizes| && m.scheme.k > 0
  {
    Before(m.chunkSizes, c) + f * FragmentLength(m, c)
  }

  /** Data fragment f of chunk c is the stretch of the content that begins after the chunks
      and fragments before it. */
  lemma {:induction false} ContentAt(d: FragmentData, m: Manifest, c: nat, f: nat)
    requires WellFormed(m) && Sized(d, m) && c < |m.chunkSizes| && f < m.scheme.k
    ensures var start := FragmentStart(m, c, f);
            && start + |d(c, f)| <= |Content(d, m)|
            && Content(d, m)[start..start + |d(c, f)|] == d(c, f)
  {
    ChunksAreSized(d, m);
    assert Content(d, m) == AllChunks(d, m.scheme.k, |m.chunkSizes|);
    assert |ChunkBytes(d, c, m.scheme.k)| == m.chunkSizes[c];
    hide Content, AllChunks, ChunkBytes, Before, ChunksSized, WellFormed;
    AllChunksAt(d, m.scheme.k, m.chunkSizes, |m.chunkSizes|, c);
    FragmentInChunk(Content(d, m), Before(m.chunkSizes, c), d, c, m.scheme.k, FragmentLength(m, c), f);
  }

  // a stretch inside one fragment, seen from the content
  lemma {:induction false} StretchAt(d: FragmentData, m: Manifest, c: nat, f: nat, offset: nat, len: nat)
    requires WellFormed(m) && Sized(d, m) && c < |m.chunkSizes| && f < m.scheme.k
    requires offset + len <= FragmentLength(m, c)
    ensures Slice(d(c, f), offset, len) == Slice(Content(d, m), FragmentStart(m, c, f) + offset, len)
    ensures FragmentStart(m, c, f) + offset + len <= |Content(d, m)|
  {
    ContentAt(d, m, c, f);
    SliceOfSlice(Content(d, m), FragmentStart(m, c, f), |d(c, f)|, offset, len);
  }

  // ------------------------------------------------------------------
  // What a manifest promises about the fragments, without its arithmetic
  // ------------------------------------------------------------------

  // The data fragments of a chunk are equally long, and together as long as the chunk.
  ghost predicate LaidOut(d: FragmentData, m: Manifest) {
    && m.scheme.k > 0
    && |m.fragments| == |m.chunkSizes|
    && (forall c :: 0 <= c < |m.chunkSizes| ==> m.chunkSizes[c] < TWO32)
    && (forall c :: 0 <= c < |m.fragments| ==> |m.fragments[c]| >= m.scheme.k)
    && (forall c: nat, f: nat :: c < |m.chunkSizes| && f < m.scheme.k ==> |d(c, f)| == |d(c, 0)|)
    && ChunksSized(d, m.scheme.k, m.chunkSizes)
  }

  lemma {:induction false} ExactQuotient(k: nat, l: nat, size: nat)
    requires k > 0 && k * l == size
    ensures size % k == 0 && size / k == l
  {
    var q, r := size / k, size % k;
    assert q * k + r == size && r < k;
    assert (l - q) * k == r;
    if l > q {
      AtLeast(l - q, k);
    }
  }

  lemma {:induction false} AtLeast(n: nat, k: nat)
    requires n > 0
    ensures n * k >= k
  {
  }

  lemma {:induction false} LaidOutChunk(d: FragmentData, m: Manifest, c: nat)
    requires LaidOut(d, m) && c < |m.chunkSizes|
    ensures m.chunkSizes[c] % m.scheme.k == 0 && FragmentLength(m, c) == |d(c, 0)|
  {
    ChunkBytesLength(d, c, m.scheme.k, |d(c, 0)|);
    ExactQuotient(m.scheme.k, |d(c, 0)|, m.chunkSizes[c]);
  }

  lemma {:induction false} LaidOutIsSized(d: FragmentData, m: Manifest)
    requires LaidOut(d, m)
    ensures WellFormed(m) && Sized(d, m)
  {
    forall c | 0 <= c < |m.chunkSizes|
      ensures m.chunkSizes[c] % m.scheme.k == 0 && FragmentLength(m, c) == |d(c, 0)|
    {
      LaidOutChunk(d, m, c);
    }
  }

  lemma {:induction false} SizedIsLaidOut(d: FragmentData, m: Manifest)
    requires WellFormed(m) && Sized(d, m)
    ensures LaidOut(d, m)
  {
    ChunksAreSized(d, m);
    forall c: nat, f: nat | c < |m.chunkSizes| && f < m.scheme.k
      ensures |d(c, f)| == |d(c, 0)|
    {
      assert |d(c, 0)| == FragmentLength(m, c);
    }
  }

  /** The layout asks no more than the arithmetic of the chunk sizes does. */
  lemma {:induction false} LaidOutIffSized(d: FragmentData, m: Manifest)
    ensures LaidOut(d, m) <==> WellFormed(m) && Sized(d, m)
  {
    if LaidOut(d, m) {
      LaidOutIsSized(d, m);
    }
    if WellFormed(m) && Sized(d, m) {
      SizedIsLaidOut(d, m);
    }
  }
}
