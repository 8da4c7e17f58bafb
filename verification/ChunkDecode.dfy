/** The second half of `download_chunk`: gather the fragments that arrived, fill
    the gaps with fresh buffers, and let the erasure code restore the chunk. */
module ChunkDecode {
  import opened Sequences
  import opened ChunkDownload

  // `fresh(i)` stands for the uninitialised buffer created for missing fragment i.
  datatype Gathered = Gathered(buffers: seq<Buf>, erasures: seq<int>, cnt: nat)

  // gather_fragments, with its accumulators; None is the size mismatch failure
  function Gather(frags: map<nat, Buf>, fresh_: nat -> Buf, size: nat, end: nat, acc: Gathered,
                  i: nat): Option<Gathered>
    requires i <= end
    decreases end - i
  {
    if i == end then Some(acc)
    else
      var b := if i in frags then frags[i] else fresh_(i);
      var er := if i in frags then acc.erasures else [i] + acc.erasures;
      var cnt := if i in frags then acc.cnt + 1 else acc.cnt;
      if |b| != size then None
      else Gather(frags, fresh_, size, end, Gathered([b] + acc.buffers, er, cnt), i + 1)
  }

  // what Erasure.decode is called with
  datatype DecoderInput = DecoderInput(erasures: seq<int>, data: seq<Buf>, coding: seq<Buf>)

  function GatherAll(frags: map<nat, Buf>, fresh_: nat -> Buf, size: nat, k: nat, m: nat): Option<DecoderInput> {
    match Gather(frags, fresh_, size, k, Gathered([], [], 0), 0)
    case None => None
    case Some(d) =>
      match Gather(frags, fresh_, size, k + m, Gathered([], d.erasures, d.cnt), k)
      case None => None
      case Some(c) => Some(DecoderInput(Reverse([-1] + c.erasures), Reverse(d.buffers), Reverse(c.buffers)))
  }

  // ------------------------------------------------------------------
  // The simple form of the same thing
  // ------------------------------------------------------------------

  // the ids in [lo, hi) that are missing, ascending
  function Missing(frags: map<nat, Buf>, lo: nat, hi: nat): seq<int>
    requires lo <= hi
    decreases hi - lo
  {
    if lo == hi then []
    else (if lo in frags then [] else [lo]) + Missing(frags, lo + 1, hi)
  }

  function Slot(frags: map<nat, Buf>, fresh_: nat -> Buf, i: nat): Buf {
    if i in frags then frags[i] else fresh_(i)
  }

  function Slots(frags: map<nat, Buf>, fresh_: nat -> Buf, lo: nat, hi: nat): seq<Buf>
    requires lo <= hi
    decreases hi - lo
  {
    if lo == hi then [] else [Slot(frags, fresh_, lo)] + Slots(frags, fresh_, lo + 1, hi)
  }

  lemma {:induction false} SlotsAt(frags: map<nat, Buf>, fresh_: nat -> Buf, lo: nat, hi: nat)
    requires lo <= hi
    ensures |Slots(frags, fresh_, lo, hi)| == hi - lo
    ensures forall j :: 0 <= j < hi - lo ==> Slots(frags, fresh_, lo, hi)[j] == Slot(frags, fresh_, lo + j)
    decreases hi - lo
  {
    if lo < hi {
      SlotsAt(frags, fresh_, lo + 1, hi);
      forall j | 0 <= j < hi - lo
        ensures Slots(frags, fresh_, lo, hi)[j] == Slot(frags, fresh_, lo + j)
      {
        if j > 0 {
          assert Slots(frags, fresh_, lo + 1, hi)[j - 1] == Slot(frags, fresh_, lo + 1 + (j - 1));
        }
      }
    }
  }

  predicate SizesOk(frags: map<nat, Buf>, fresh_: nat -> Buf, size: nat, lo: nat, hi: nat) {
    forall i :: lo <= i < hi ==> |Slot(frags, fresh_, i)| == size
  }

  lemma {:induction false} Reassociate<T>(r: seq<T>, x: T, rest: seq<T>)
    ensures (r + [x]) + rest == r + ([x] + rest)
  {
  }

  // the state of the accumulators after looking at fragment i
  function Advance(frags: map<nat, Buf>, fresh_: nat -> Buf, acc: Gathered, i: nat): Gathered {
    Gathered([Slot(frags, fresh_, i)] + acc.buffers,
             if i in frags then acc.erasures else [i] + acc.erasures,
             if i in frags then acc.cnt + 1 else acc.cnt)
  }

  lemma {:induction false} GatherSucceeds(frags: map<nat, Buf>, fresh_: nat -> Buf, size: nat, end: nat,
                                          acc: Gathered, i: nat)
    requires i <= end
    ensures Gather(frags, fresh_, size, end, acc, i).Some? <==> SizesOk(frags, fresh_, size, i, end)
    decreases end - i
  {
    if i < end {
      GatherSucceeds(frags, fresh_, size, end, Advance(frags, fresh_, acc, i), i + 1);
      if SizesOk(frags, fresh_, size, i, end) {
        assert |Slot(frags, fresh_, i)| == size;
      }
    }
  }

  predicate IsGatherOf(g: Gathered, acc: Gathered, frags: map<nat, Buf>, fresh_: nat -> Buf, i: nat, end: nat)
    requires i <= end
  {
    && Reverse(g.buffers) == Reverse(acc.buffers) + Slots(frags, fresh_, i, end)
    && Reverse(g.erasures) == Reverse(acc.erasures) + Missing(frags, i, end)
    && g.cnt + |Missing(frags, i, end)| == acc.cnt + (end - i)
  }

  lemma {:induction false} GatherOfStep(g: Gathered, acc: Gathered, frags: map<nat, Buf>, fresh_: nat -> Buf, i: nat,
                                        end: nat)
    requires i < end
    requires IsGatherOf(g, Advance(frags, fresh_, acc, i), frags, fresh_, i + 1, end)
    ensures IsGatherOf(g, acc, frags, fresh_, i, end)
  {
    var b := Slot(frags, fresh_, i);
    assert Reverse([b] + acc.buffers) + Slots(frags, fresh_, i + 1, end)
           == Reverse(acc.buffers) + Slots(frags, fresh_, i, end) by {
      ReverseCons(b, acc.buffers);
      Reassociate(Reverse(acc.buffers), b, Slots(frags, fresh_, i + 1, end));
    }
    if i !in frags {
      assert Reverse([i] + acc.erasures) + Missing(frags, i + 1, end)
             == Reverse(acc.erasures) + Missing(frags, i, end) by {
        ReverseCons(i, acc.erasures);
        Reassociate(Reverse(acc.erasures), i, Missing(frags, i + 1, end));
      }
    } else {
      assert Missing(frags, i, end) == Missing(frags, i + 1, end);
    }
  }

  lemma {:induction false} GatherIsSimple(frags: map<nat, Buf>, fresh_: nat -> Buf, size: nat, end: nat,
                                          acc: Gathered, i: nat)
    requires i <= end
    requires Gather(frags, fresh_, size, end, acc, i).Some?
    ensures IsGatherOf(Gather(frags, fresh_, size, end, acc, i).value, acc, frags, fresh_, i, end)
    decreases end - i
  {
    if i < end {
      GatherIsSimple(frags, fresh_, size, end, Advance(frags, fresh_, acc, i), i + 1);
      GatherOfStep(Gather(frags, fresh_, size, end, acc, i).value, acc, frags, fresh_, i, end);
    }
  }

  lemma {:induction false} MissingConcat(frags: map<nat, Buf>, lo: nat, mid: nat, hi: nat)
    requires lo <= mid <= hi
    ensures Missing(frags, lo, mid) + Missing(frags, mid, hi) == Missing(frags, lo, hi)
    decreases mid - lo
  {
    if lo == mid {
      assert [] + Missing(frags, mid, hi) == Missing(frags, mid, hi);
    } else {
      MissingConcat(frags, lo + 1, mid, hi);
    }
  }

  // xs holds the ids of [lo, hi) that are not in frags, and nothing else
  ghost predicate AreExactly(xs: seq<int>, frags: map<nat, Buf>, lo: nat, hi: nat) {
    forall x :: x in xs <==> lo <= x < hi && x !in frags
  }

  predicate Increasing(xs: seq<int>) {
    forall i, j :: 0 <= i < j < |xs| ==> xs[i] < xs[j]
  }

  lemma {:induction false} MissingSpec(frags: map<nat, Buf>, lo: nat, hi: nat)
    requires lo <= hi
    ensures AreExactly(Missing(frags, lo, hi), frags, lo, hi)
    ensures Increasing(Missing(frags, lo, hi))
    decreases hi - lo
  {
    if lo < hi {
      MissingSpec(frags, lo + 1, hi);
      var rest := Missing(frags, lo + 1, hi);
      forall j | 0 <= j < |rest|
        ensures lo < rest[j]
      {
        assert rest[j] in rest;
      }
    }
  }

  lemma {:induction false} MissingCount(frags: map<nat, Buf>, lo: nat, hi: nat, have: set<nat>)
    requires lo <= hi && have == set i | i in frags && lo <= i < hi
    ensures |Missing(frags, lo, hi)| + |have| == hi - lo
    decreases hi - lo
  {
    if lo < hi {
      var rest := set i | i in frags && lo + 1 <= i < hi;
      MissingCount(frags, lo + 1, hi, rest);
      if lo in frags {
        assert have == rest + {lo};
      } else {
        assert have == rest;
      }
    } else {
      assert have == {};
    }
  }

  // One of the two calls: it succeeds when the sizes agree and yields slots and missing ids.
  lemma {:induction false} GatherRange(frags: map<nat, Buf>, fresh_: nat -> Buf, size: nat, lo: nat, hi: nat,
                                       erasures: seq<int>, cnt: nat)
    requires lo <= hi
    ensures var g := Gather(frags, fresh_, size, hi, Gathered([], erasures, cnt), lo);
            && (g.Some? <==> SizesOk(frags, fresh_, size, lo, hi))
            && (g.Some? ==> Reverse(g.value.buffers) == Slots(frags, fresh_, lo, hi) &&
                            Reverse(g.value.erasures) == Reverse(erasures) + Missing(frags, lo, hi))
  {
    var acc := Gathered([], erasures, cnt);
    GatherSucceeds(frags, fresh_, size, hi, acc, lo);
    if Gather(frags, fresh_, size, hi, acc, lo).Some? {
      GatherIsSimple(frags, fresh_, size, hi, acc, lo);
      assert [] + Slots(frags, fresh_, lo, hi) == Slots(frags, fresh_, lo, hi);
    }
  }

  lemma {:induction false} GatherAllIsSimple(frags: map<nat, Buf>, fresh_: nat -> Buf, size: nat, k: nat, m: nat)
    ensures GatherAll(frags, fresh_, size, k, m).Some? <==>
            SizesOk(frags, fresh_, size, 0, k) && SizesOk(frags, fresh_, size, k, k + m)
    ensures GatherAll(frags, fresh_, size, k, m).Some? ==>
              GatherAll(frags, fresh_, size, k, m).value ==
              DecoderInput(Missing(frags, 0, k + m) + [-1], Slots(frags, fresh_, 0, k), Slots(frags, fresh_, k, k + m))
  {
    GatherRange(frags, fresh_, size, 0, k, [], 0);
    var g := Gather(frags, fresh_, size, k, Gathered([], [], 0), 0);
    if g.Some? {
      GatherRange(frags, fresh_, size, k, k + m, g.value.erasures, g.value.cnt);
      var c := Gather(frags, fresh_, size, k + m, Gathered([], g.value.erasures, g.value.cnt), k);
      if c.Some? {
        MissingConcat(frags, 0, k, k + m);
        assert [] + Missing(frags, 0, k) == Missing(frags, 0, k);
        ReverseCons(-1, c.value.erasures);
      }
    }
  }

  /** The erasure list handed to the decoder is the ascending list of the ids that
      did not arrive, closed by -1; together with the collected ids it splits
      0..k+m-1; and when at least k fragments arrived it has at most m entries. */
  lemma {:induction false} ErasuresPartition(frags: map<nat, Buf>, fresh_: nat -> Buf, size: nat, k: nat, m: nat)
    requires forall i :: i in frags ==> i < k + m
    requires GatherAll(frags, fresh_, size, k, m).Some?
    ensures var gone := Missing(frags, 0, k + m);
            && GatherAll(frags, fresh_, size, k, m).value.erasures == gone + [-1]
            && AreExactly(gone, frags, 0, k + m) && Increasing(gone)
            && |gone| == k + m - |frags| && (|frags| >= k ==> |gone| <= m)
  {
    var gone := Missing(frags, 0, k + m);
    assert AreExactly(gone, frags, 0, k + m) && Increasing(gone) by { MissingSpec(frags, 0, k + m); }
    assert |gone| == k + m - |frags| by { MissingTotal(frags, k + m); }
    GatherAllIsSimple(frags, fresh_, size, k, m);
  }

  lemma {:induction false} MissingTotal(frags: map<nat, Buf>, n: nat)
    requires forall i :: i in frags ==> i < n
    ensures |Missing(frags, 0, n)| == n - |frags|
  {
    var have := set i | i in frags && 0 <= i < n;
    MissingCount(frags, 0, n, have);
    assert have == frags.Keys;
  }

  // ------------------------------------------------------------------
  // Decoding
  // ------------------------------------------------------------------

  // An erasure code as the library offers it: codeword of k data buffers, and decoding in place.
  datatype Code = Code(encode: seq<Buf> -> seq<Buf>, decode: (seq<int>, seq<Buf>, seq<Buf>) -> seq<Buf>)

  predicate AllOfSize(bs: seq<Buf>, size: nat) {
    forall i :: 0 <= i < |bs| ==> |bs[i]| == size
  }

  // ids of fragments, ascending; the decoder reads such a list up to its end mark -1
  predicate IsErasureList(gone: seq<int>, n: nat) {
    Increasing(gone) && forall i :: 0 <= i < |gone| ==> 0 <= gone[i] < n
  }

  /** What the library promises: equally long data buffers are encoded into k + m buffers of that
      length, and decoded from any such word of which at most m listed positions are wrong. */
  ghost predicate IsMds(code: Code, k: nat, m: nat) {
    && (forall data: seq<Buf>, size: nat :: |data| == k && AllOfSize(data, size) ==>
          |code.encode(data)| == k + m && AllOfSize(code.encode(data), size))
    && (forall data: seq<Buf>, size: nat, gone: seq<int>, d: seq<Buf>, c: seq<Buf> ::
          Decodable(code, k, m, data, size, gone, d, c) ==> code.decode(gone + [-1], d, c) == data)
  }

  predicate Decodable(code: Code, k: nat, m: nat, data: seq<Buf>, size: nat, gone: seq<int>, d: seq<Buf>, c: seq<Buf>) {
    && |data| == k && AllOfSize(data, size)
    && |d| == k && |c| == m && AllOfSize(d + c, size)
    && IsErasureList(gone, k + m) && |gone| <= m
    && AgreesOutside(code.encode(data), gone, d + c)
  }

  // the received word equals the codeword at every position that was not erased
  predicate AgreesOutside(word: seq<Buf>, gone: seq<int>, received: seq<Buf>) {
    |word| == |received| && forall i :: 0 <= i < |word| && i !in gone ==> received[i] == word[i]
  }

  // every download that ends well delivers the fragment the encoder produced
  predicate Genuine(es: seq<Event>, word: seq<Buf>) {
    forall i :: 0 <= i < |es| && es[i].Succeed? ==> es[i].id < |word| && es[i].data == word[es[i].id]
  }

  lemma {:induction false} CollectedAreGenuine(s: State, es: seq<Event>, k: nat, word: seq<Buf>)
    requires Runs(s, es, k) && Genuine(es, word)
    requires forall i :: i in s.fragments ==> i < |word| && s.fragments[i] == word[i]
    ensures forall i :: i in After(s, es, k).fragments ==>
              i < |word| && After(s, es, k).fragments[i] == word[i]
    decreases |es|
  {
    if es != [] {
      assert forall i :: 0 <= i < |es[1..]| ==> es[1..][i] == es[i + 1];
      CollectedAreGenuine(Step(s, es[0], k), es[1..], k, word);
    }
  }

  lemma {:induction false} ReceivedAgrees(frags: map<nat, Buf>, fresh_: nat -> Buf, k: nat, m: nat, word: seq<Buf>)
    requires |word| == k + m
    requires forall i :: i in frags ==> i < k + m && frags[i] == word[i]
    ensures AgreesOutside(word, Missing(frags, 0, k + m), Slots(frags, fresh_, 0, k) + Slots(frags, fresh_, k, k + m))
  {
    SlotsAt(frags, fresh_, 0, k);
    SlotsAt(frags, fresh_, k, k + m);
    MissingSpec(frags, 0, k + m);
    var received := Slots(frags, fresh_, 0, k) + Slots(frags, fresh_, k, k + m);
    forall i | 0 <= i < |word| && i !in Missing(frags, 0, k + m)
      ensures received[i] == word[i]
    {
      assert received[i] == Slot(frags, fresh_, if i < k then 0 + i else k + (i - k));
    }
  }

  lemma {:induction false} ReceivedOfSize(frags: map<nat, Buf>, fresh_: nat -> Buf, size: nat, k: nat, m: nat)
    requires SizesOk(frags, fresh_, size, 0, k) && SizesOk(frags, fresh_, size, k, k + m)
    ensures |Slots(frags, fresh_, 0, k)| == k && |Slots(frags, fresh_, k, k + m)| == m
    ensures AllOfSize(Slots(frags, fresh_, 0, k) + Slots(frags, fresh_, k, k + m), size)
  {
    SlotsAt(frags, fresh_, 0, k);
    SlotsAt(frags, fresh_, k, k + m);
    var received := Slots(frags, fresh_, 0, k) + Slots(frags, fresh_, k, k + m);
    forall i | 0 <= i < |received|
      ensures |received[i]| == size
    {
      assert received[i] == Slot(frags, fresh_, if i < k then 0 + i else k + (i - k));
    }
  }

  lemma {:induction false} MissingIsErasureList(frags: map<nat, Buf>, n: nat)
    ensures IsErasureList(Missing(frags, 0, n), n)
  {
    MissingSpec(frags, 0, n);
    var gone := Missing(frags, 0, n);
    assert forall i :: 0 <= i < |gone| ==> gone[i] in gone;
  }

  // Enough genuine fragments, at the right places: the decoder's contract applies.
  lemma {:induction false} DecodeRestores(code: Code, k: nat, m: nat, data: seq<Buf>, size: nat,
                                          frags: map<nat, Buf>, fresh_: nat -> Buf)
    requires IsMds(code, k, m) && |data| == k && AllOfSize(data, size)
    requires |frags| >= k && forall i :: i in frags ==> i < |code.encode(data)| && frags[i] == code.encode(data)[i]
    requires GatherAll(frags, fresh_, size, k, m).Some?
    ensures var d := GatherAll(frags, fresh_, size, k, m).value;
            code.decode(d.erasures, d.data, d.coding) == data
  {
    assert |code.encode(data)| == k + m;
    ErasuresPartition(frags, fresh_, size, k, m);
    GatherAllIsSimple(frags, fresh_, size, k, m);
    MissingIsErasureList(frags, k + m);
    ReceivedOfSize(frags, fresh_, size, k, m);
    ReceivedAgrees(frags, fresh_, k, m, code.encode(data));
    hide GatherAll, Missing, Slots, AllOfSize, IsErasureList, AgreesOutside, SizesOk, Increasing, AreExactly;
    assert Decodable(code, k, m, data, size, Missing(frags, 0, k + m), Slots(frags, fresh_, 0, k),
                     Slots(frags, fresh_, k, k + m));
  }

  /** Whatever order the fetches end in, if download_chunk gets as far as decoding
      then the decoder gives back exactly the chunk's data fragments. */
  lemma {:induction false} ChunkIsRestored(code: Code, p: Plan, es: seq<Event>, k: nat, m: nat, data: seq<Buf>,
                                           size: nat, fresh_: nat -> Buf)
    requires LatchesOk(p) && DistinctIds(p.targets) && Runs(Start(p), es, k)
    requires IsMds(code, k, m) && |data| == k && AllOfSize(data, size)
    requires forall i :: |fresh_(i)| == size
    requires Genuine(es, code.encode(data))
    requires After(Start(p), es, k).outcome.Gathering?
    ensures var frags := After(Start(p), es, k).fragments;
            && GatherAll(frags, fresh_, size, k, m).Some?
            && var d := GatherAll(frags, fresh_, size, k, m).value;
               code.decode(d.erasures, d.data, d.coding) == data
  {
    assert |code.encode(data)| == k + m && AllOfSize(code.encode(data), size);
    CollectedAreGenuine(Start(p), es, k, code.encode(data));
    RunFacts(p, es, k);
    var frags := After(Start(p), es, k).fragments;
    GatherAllIsSimple(frags, fresh_, size, k, m);
    DecodeRestores(code, k, m, data, size, frags, fresh_);
  }

  // ------------------------------------------------------------------
  // A code that keeps the promise: with k = 1 the fragments are copies
  // ------------------------------------------------------------------

  // what a decoder that stops at the first -1 takes for the erased ids
  function UpToMark(erasures: seq<int>): seq<int> {
    if erasures == [] || erasures[0] == -1 then [] else [erasures[0]] + UpToMark(erasures[1..])
  }

  // the first of the n positions from i on that is not erased
  function FirstKept(gone: seq<int>, i: nat, n: nat): nat
    requires i <= n
    decreases n - i
  {
    if i == n || i !in gone then i else FirstKept(gone, i + 1, n)
  }

  function Copies(m: nat): Code {
    Code((data: seq<Buf>) => if |data| == 1 then seq(1 + m, _ => data[0]) else [],
         (erasures: seq<int>, d: seq<Buf>, c: seq<Buf>) =>
           if erasures == [-1] then d
           else
             var i := FirstKept(UpToMark(erasures), 0, |d + c|);
             if i < |d + c| then [(d + c)[i]] else d)
  }

  lemma {:induction false} UpToMarkOf(gone: seq<int>, n: nat)
    requires IsErasureList(gone, n)
    ensures UpToMark(gone + [-1]) == gone
  {
    if gone == [] {
      assert gone + [-1] == [-1];
    } else {
      assert (gone + [-1])[1..] == gone[1..] + [-1];
      assert forall i :: 0 <= i < |gone[1..]| ==> gone[1..][i] == gone[i + 1];
      UpToMarkOf(gone[1..], n);
    }
  }

  lemma {:induction false} FirstKeptSpec(gone: seq<int>, i: nat, n: nat)
    requires i <= n
    ensures var r := FirstKept(gone, i, n);
            i <= r <= n && (r < n ==> r !in gone) && forall j :: i <= j < r ==> j in gone
    decreases n - i
  {
    if i < n && i in gone {
      FirstKeptSpec(gone, i + 1, n);
    }
  }

  // a list that contains 0 .. n-1 has at least n elements
  lemma {:induction false} Pigeons(gone: seq<int>, n: nat)
    requires forall j :: 0 <= j < n ==> j in gone
    ensures |gone| >= n
    decreases n
  {
    if n > 0 {
      assert n - 1 in gone;
      var i :| 0 <= i < |gone| && gone[i] == n - 1;
      var rest := gone[..i] + gone[i + 1..];
      forall j | 0 <= j < n - 1
        ensures j in rest
      {
        assert j in gone;
        var a :| 0 <= a < |gone| && gone[a] == j;
        assert rest[if a < i then a else a - 1] == j;
      }
      Pigeons(rest, n - 1);
    }
  }

  /** The decoder's promise is one that a decoder can keep which reads its erasures up to the end mark
      and leaves the data alone when there are none: for k = 1, copies keep it. */
  lemma {:induction false} CopiesAreMds(m: nat)
    ensures IsMds(Copies(m), 1, m)
  {
    var code := Copies(m);
    forall data: seq<Buf>, size: nat, gone: seq<int>, d: seq<Buf>,
      c: seq<Buf> | Decodable(code, 1, m, data, size, gone, d, c)
      ensures code.decode(gone + [-1], d, c) == data
    {
      CopyDecodes(m, data, size, gone, d, c);
    }
  }

  lemma {:induction false} CopyDecodes(m: nat, data: seq<Buf>, size: nat, gone: seq<int>, d: seq<Buf>, c: seq<Buf>)
    requires Decodable(Copies(m), 1, m, data, size, gone, d, c)
    ensures Copies(m).decode(gone + [-1], d, c) == data
  {
    var word := Copies(m).encode(data);
    if gone == [] {
      assert gone + [-1] == [-1];
      assert (d + c)[0] == word[0] == data[0];
      assert d == [d[0]] && data == [data[0]];
    } else {
      assert (gone + [-1])[0] != -1;
      UpToMarkOf(gone, 1 + m);
      FirstKeptSpec(gone, 0, |d + c|);
      var i := FirstKept(gone, 0, |d + c|);
      if i == |d + c| {
        Pigeons(gone, 1 + m);
      }
      assert (d + c)[i] == word[i] == data[0];
      assert data == [data[0]];
    }
  }
}
