/** The direct read path: from slices of an object to pieces of fragments, through a stack
    of fragment caches.

    Every level of the stack is an alba of its own.  What one level calls a fragment, the next
    level stores as an object named after the fragment. */
module ReadPath {
  import opened Sequences
  import opened Bytes
  import opened Llio
  import opened ManifestFields
  import opened ObjectBytes
  import opened FragmentKeys

  // a manifest with the id of its namespace
  datatype Mf = Mf(m: Manifest, namespaceId: nat)

  datatype Location = Location(namespaceId: nat, objectId: seq<byte>, chunkId: nat, fragmentId: nat,
                               offset: nat, length: nat, loc: (Option<nat>, nat),
                               usesCompression: bool, encryptInfo: EncryptInfo, ctr: Option<seq<byte>>)

  // `buf` and `target` are addresses in the caller's memory
  datatype SliceDescriptor = SliceDescriptor(buf: nat, offset: nat, size: nat)
  datatype Piece = Piece(target: nat, l: Location)

  datatype FragmentRef = FragmentRef(namespaceId: nat, objectId: seq<byte>, chunkId: nat, fragmentId: nat)

  /** What the manifest cache answers to the t-th lookup, for a level and an object name; and the
      bytes of every data fragment of every level. */
  datatype World = World(find: (nat, nat, seq<byte>) -> Option<Mf>, fragment: (nat, FragmentRef) -> seq<bv8>)

  function RefOf(l: Location): FragmentRef {
    FragmentRef(l.namespaceId, l.objectId, l.chunkId, l.fragmentId)
  }

  function DataOf(w: World, level: nat, mf: Mf): FragmentData {
    (c: nat, f: nat) => w.fragment(level, FragmentRef(mf.namespaceId, mf.m.objectId, c, f))
  }

  // the bytes of the object that mf describes
  function ObjectOf(w: World, level: nat, mf: Mf): seq<bv8> {
    Content(DataOf(w, level, mf), mf.m)
  }

  // ------------------------------------------------------------------
  // The location of a position
  // ------------------------------------------------------------------

  // l is the stretch of the object that begins at pos, inside one data fragment
  predicate IsLocation(mf: Mf, pos: nat, len: nat, l: Location)
    requires WellFormed(mf.m)
  {
    && l.chunkId < |mf.m.chunkSizes| && l.fragmentId < mf.m.scheme.k
    && FragmentStart(mf.m, l.chunkId, l.fragmentId) + l.offset == pos
    && 0 < l.length <= len && l.offset + l.length <= FragmentLength(mf.m, l.chunkId)
    && (l.length == len || l.offset + l.length == FragmentLength(mf.m, l.chunkId))
  }

  // everything else in the location is the manifest's
  predicate Describes(mf: Mf, l: Location) {
    && l.namespaceId == mf.namespaceId && l.objectId == mf.m.objectId
    && l.chunkId < |mf.m.fragments| && l.fragmentId < |mf.m.fragments[l.chunkId]|
    && l.loc == mf.m.fragments[l.chunkId][l.fragmentId].loc
    && l.ctr == mf.m.fragments[l.chunkId][l.fragmentId].ctr
    && (l.usesCompression <==> mf.m.compression != NoCompression)
    && l.encryptInfo == mf.m.encryptInfo
  }

  lemma {:induction false} DivMod(x: nat, l: nat)
    requires l > 0
    ensures x / l * l + x % l == x && x % l < l
  {
  }

  lemma {:induction false} QuotientBelow(x: nat, k: nat, l: nat)
    requires l > 0 && x < k * l
    ensures x / l < k
  {
    if x / l >= k {
      DivMod(x, l);
      MulOrder(k, x / l, l);
    }
  }

  lemma {:induction false} MulOrder(a: nat, b: nat, l: nat)
    requires a <= b
    ensures a * l <= b * l
  {
  }

  // position x of a chunk lies in data fragment x / l at offset x % l
  lemma {:induction false} PositionInChunk(m: Manifest, c: nat, x: nat)
    requires WellFormed(m) && c < |m.chunkSizes| && x < m.chunkSizes[c]
    ensures var l := FragmentLength(m, c);
            l > 0 && x / l < m.scheme.k && x / l * l + x % l == x && x % l < l
  {
    var l := FragmentLength(m, c);
    WholeFragments(m, c);
    DivMod(x, l);
    QuotientBelow(x, m.scheme.k, l);
  }

  method FindChunk(sizes: seq<nat>, pos: nat) returns (index: nat, total: nat)
    requires pos < Total(sizes)
    ensures index < |sizes| && total == Before(sizes, index) <= pos < total + sizes[index]
  {
    var chunkIndex := -1;
    total := 0;
    while total <= pos
      invariant -1 <= chunkIndex < |sizes|
      invariant total == Before(sizes, chunkIndex + 1)
      invariant chunkIndex >= 0 ==> Before(sizes, chunkIndex) <= pos
      decreases |sizes| - chunkIndex
    {
      chunkIndex := chunkIndex + 1;
      total := total + sizes[chunkIndex];
    }
    index := chunkIndex;
    total := total - sizes[index];
  }

  // position x of a chunk of fragments of length l: which fragment, where in it, and how much of the request it holds
  method LocateInChunk(ghost m: Manifest, ghost c: nat, l: nat, x: nat, len: nat)
    returns (f: nat, offset: nat, length: nat)
    requires WellFormed(m) && c < |m.chunkSizes| && x < m.chunkSizes[c] && l == FragmentLength(m, c) && len > 0
    ensures f < m.scheme.k && f * l + offset == x
    ensures 0 < length <= len && offset + length <= l && (length == len || offset + length == l)
  {
    PositionInChunk(m, c, x);
    f := x / l;
    offset := x - l * f;
    length := if len < l - offset then len else l - offset;
  }

  /** For every position of the object: the fragment that holds it, the offset in it, and as much
      of the request as the fragment still holds. */
  method GetLocation(mf: Mf, pos: nat, len: nat) returns (l: Location)
    requires WellFormed(mf.m) && pos < Total(mf.m.chunkSizes) && len > 0
    ensures IsLocation(mf, pos, len, l) && Describes(mf, l)
  {
    var c, total := FindChunk(mf.m.chunkSizes, pos);
    var fragmentLength := mf.m.chunkSizes[c] / mf.m.scheme.k;
    var f, offset, length := LocateInChunk(mf.m, c, fragmentLength, pos - total, len);
    var fragment := mf.m.fragments[c][f];
    l := Location(mf.namespaceId, mf.m.objectId, c, f, offset, length, fragment.loc,
                  mf.m.compression != NoCompression, mf.m.encryptInfo, fragment.ctr);
  }

  // ------------------------------------------------------------------
  // What a list of pieces delivers: every byte with its address
  // ------------------------------------------------------------------

  type Delivery = seq<(nat, bv8)>

  function BytesTo(addr: nat, data: seq<bv8>): (r: Delivery)
    ensures |r| == |data|
    ensures forall i :: 0 <= i < |data| ==> r[i] == (addr + i, data[i])
  {
    seq(|data|, i requires 0 <= i < |data| => (addr + i, data[i]))
  }

  // the piece's stretch of its fragment
  function PieceData(w: World, level: nat, p: Piece): seq<bv8> {
    Slice(w.fragment(level, RefOf(p.l)), p.l.offset, p.l.length)
  }

  ghost predicate PieceFits(w: World, level: nat, p: Piece) {
    0 < p.l.length && p.l.offset + p.l.length <= |w.fragment(level, RefOf(p.l))|
  }

  function Delivered(w: World, level: nat, ps: seq<Piece>): Delivery {
    if ps == [] then []
    else Delivered(w, level, ps[..|ps| - 1]) + BytesTo(ps[|ps| - 1].target, PieceData(w, level, ps[|ps| - 1]))
  }

  // what the caller asked for, of an object with these bytes
  function Wanted(object_: seq<bv8>, slices: seq<SliceDescriptor>): Delivery {
    if slices == [] then []
    else
      var s := slices[|slices| - 1];
      Wanted(object_, slices[..|slices| - 1]) + BytesTo(s.buf, Slice(object_, s.offset, s.size))
  }

  lemma {:induction false} DeliveredOneMore(w: World, level: nat, ps: seq<Piece>, p: Piece)
    ensures Delivered(w, level, ps + [p]) == Delivered(w, level, ps) + BytesTo(p.target, PieceData(w, level, p))
  {
    assert (ps + [p])[..|ps|] == ps;
  }

  lemma {:induction false} DeliveredConcat(w: World, level: nat, ps: seq<Piece>, qs: seq<Piece>)
    ensures Delivered(w, level, ps + qs) == Delivered(w, level, ps) + Delivered(w, level, qs)
    decreases |qs|
  {
    if qs == [] {
      assert ps + qs == ps;
    } else {
      var qs', q := qs[..|qs| - 1], qs[|qs| - 1];
      assert ps + qs == (ps + qs') + [q];
      DeliveredOneMore(w, level, ps + qs', q);
      DeliveredConcat(w, level, ps, qs');
      AppendAssociates(Delivered(w, level, ps), Delivered(w, level, qs'), BytesTo(q.target, PieceData(w, level, q)));
    }
  }

  lemma {:induction false} WantedOneMore(object_: seq<bv8>, slices: seq<SliceDescriptor>, s: SliceDescriptor)
    ensures Wanted(object_, slices + [s]) == Wanted(object_, slices) + BytesTo(s.buf, Slice(object_, s.offset, s.size))
  {
    assert (slices + [s])[..|slices|] == slices;
  }

  lemma {:induction false} BytesToSplits(addr: nat, object_: seq<bv8>, offset: nat, n: nat, len: nat)
    requires offset + n + len <= |object_|
    ensures BytesTo(addr, Slice(object_, offset, n)) + BytesTo(addr + n, Slice(object_, offset + n, len))
         == BytesTo(addr, Slice(object_, offset, n + len))
  {
  }

  // ------------------------------------------------------------------
  // One level
  // ------------------------------------------------------------------

  ghost predicate Known(w: World, level: nat, mf: Mf) {
    LaidOut(DataOf(w, level, mf), mf.m)
  }

  // A located piece delivers the object's bytes at its position.
  lemma {:induction false} LocatedBytes(w: World, level: nat, mf: Mf, pos: nat, len: nat, p: Piece)
    requires Known(w, level, mf) && WellFormed(mf.m) && IsLocation(mf, pos, len, p.l) && Describes(mf, p.l)
    ensures PieceData(w, level, p) == Slice(ObjectOf(w, level, mf), pos, p.l.length)
    ensures PieceFits(w, level, p)
  {
    LaidOutIsSized(DataOf(w, level, mf), mf.m);
    hide Known, LaidOut, Content, FragmentStart, FragmentLength, WellFormed;
    StretchAt(DataOf(w, level, mf), mf.m, p.l.chunkId, p.l.fragmentId, p.l.offset, p.l.length);
  }

  // a nonempty stretch inside a data fragment of the manifest
  ghost predicate Good(w: World, level: nat, mf: Mf, p: Piece) {
    Describes(mf, p.l) && p.l.fragmentId < mf.m.scheme.k && PieceFits(w, level, p)
  }

  ghost predicate AllGood(w: World, level: nat, mf: Mf, ps: seq<Piece>) {
    forall i :: 0 <= i < |ps| ==> Good(w, level, mf, ps[i])
  }

  // the piece is a part of the slice: it goes to where its position in the object belongs
  ghost predicate PartOf(m: Manifest, s: SliceDescriptor, p: Piece) {
    && m.scheme.k > 0 && p.l.chunkId < |m.chunkSizes|
    && s.buf <= p.target && p.target + p.l.length <= s.buf + s.size
    && FragmentStart(m, p.l.chunkId, p.l.fragmentId) + p.l.offset - s.offset == p.target - s.buf
  }

  // some slice of the request needs the piece
  ghost predicate Needed(m: Manifest, request: seq<SliceDescriptor>, p: Piece) {
    exists i :: 0 <= i < |request| && PartOf(m, request[i], p)
  }

  ghost predicate AllNeeded(m: Manifest, request: seq<SliceDescriptor>, ps: seq<Piece>) {
    forall i :: 0 <= i < |ps| ==> Needed(m, request, ps[i])
  }

  // One more piece continues the bytes that earlier pieces delivered after `before`.
  lemma {:induction false} DeliverMore(w: World, level: nat, before: Delivery, ps: seq<Piece>, p: Piece, target: nat,
                                       object_: seq<bv8>, offset: nat, n: nat)
    requires Delivered(w, level, ps) == before + BytesTo(target, Slice(object_, offset, n))
    requires p.target == target + n && offset + n + p.l.length <= |object_|
    requires PieceData(w, level, p) == Slice(object_, offset + n, p.l.length)
    ensures Delivered(w, level, ps + [p]) == before + BytesTo(target, Slice(object_, offset, n + p.l.length))
  {
    hide *;
    DeliveredOneMore(w, level, ps, p);
    AppendAssociates(before, BytesTo(target, Slice(object_, offset, n)), BytesTo(p.target, PieceData(w, level, p)));
    BytesToSplits(target, object_, offset, n, p.l.length);
  }

  method NextPiece(ghost w: World, ghost level: nat, mf: Mf, offset: nat, length: nat, target: nat) returns (p: Piece)
    requires Known(w, level, mf) && offset + length <= |ObjectOf(w, level, mf)| && length > 0
    ensures p.target == target && p.l.length <= length && Good(w, level, mf, p)
    ensures PieceData(w, level, p) == Slice(ObjectOf(w, level, mf), offset, p.l.length)
    ensures mf.m.scheme.k > 0 && p.l.chunkId < |mf.m.chunkSizes|
    ensures FragmentStart(mf.m, p.l.chunkId, p.l.fragmentId) + p.l.offset == offset
  {
    LaidOutIsSized(DataOf(w, level, mf), mf.m);
    ContentLength(DataOf(w, level, mf), mf.m);
    var l := GetLocation(mf, offset, length);
    p := Piece(target, l);
    LocatedBytes(w, level, mf, offset, length, p);
  }

  lemma {:induction false} OneMoreGood(w: World, level: nat, mf: Mf, ps: seq<Piece>, p: Piece,
                                       request: seq<SliceDescriptor>)
    requires AllGood(w, level, mf, ps) && Good(w, level, mf, p)
    requires AllNeeded(mf.m, request, ps) && Needed(mf.m, request, p)
    ensures AllGood(w, level, mf, ps + [p]) && AllNeeded(mf.m, request, ps + [p])
  {
  }

  // the first n bytes of the request have been delivered, after `before`
  ghost predicate DeliveredUpTo(w: World, level: nat, before: Delivery, ps: seq<Piece>, target: nat,
                                object_: seq<bv8>, offset: nat, n: nat) {
    Delivered(w, level, ps) == before + BytesTo(target, Slice(object_, offset, n))
  }

  lemma {:induction false} NothingDelivered(w: World, level: nat, ps: seq<Piece>, target: nat, object_: seq<bv8>,
                                            offset: nat)
    ensures DeliveredUpTo(w, level, Delivered(w, level, ps), ps, target, object_, offset, 0)
  {
    assert BytesTo(target, Slice(object_, offset, 0)) == [];
    AppendNothing(Delivered(w, level, ps));
  }

  lemma {:induction false} PartIsNeeded(m: Manifest, request: seq<SliceDescriptor>, s: SliceDescriptor, p: Piece)
    requires s in request && PartOf(m, s, p)
    ensures Needed(m, request, p)
  {
  }

  // `s` is the slice of the request being resolved, of which n bytes are done
  method AddPiece(ghost w: World, ghost level: nat, ghost before: Delivery, ghost request: seq<SliceDescriptor>,
                  ghost s: SliceDescriptor, ghost n: nat,
                  results0: seq<Piece>, mf: Mf, offset: nat, length: nat, target: nat)
    returns (results: seq<Piece>, len: nat)
    requires Known(w, level, mf) && offset + length <= |ObjectOf(w, level, mf)| && length > 0
    requires s in request && offset == s.offset + n && target == s.buf + n && n + length == s.size
    requires AllGood(w, level, mf, results0) && AllNeeded(mf.m, request, results0)
    requires DeliveredUpTo(w, level, before, results0, s.buf, ObjectOf(w, level, mf), s.offset, n)
    ensures 0 < len <= length && AllGood(w, level, mf, results) && AllNeeded(mf.m, request, results)
    ensures DeliveredUpTo(w, level, before, results, s.buf, ObjectOf(w, level, mf), s.offset, n + len)
  {
    hide ObjectOf, Delivered, Known, AllGood, AllNeeded, Needed, FragmentStart, PieceData, Slice;
    var p := NextPiece(w, level, mf, offset, length, target);
    PartIsNeeded(mf.m, request, s, p);
    OneMoreGood(w, level, mf, results0, p, request);
    DeliverMore(w, level, before, results0, p, s.buf, ObjectOf(w, level, mf), s.offset, n);
    results := results0 + [p];
    len := p.l.length;
  }

  /** The pieces of one slice follow each other without gap or overlap, in the buffer and in the object. */
  method ResolveSliceOneLevel(ghost w: World, ghost level: nat, ghost request: seq<SliceDescriptor>,
                              results0: seq<Piece>, mf: Mf, offset0: nat, length0: nat, target0: nat)
    returns (results: seq<Piece>)
    requires Known(w, level, mf) && offset0 + length0 <= |ObjectOf(w, level, mf)|
    requires SliceDescriptor(target0, offset0, length0) in request
    requires AllGood(w, level, mf, results0) && AllNeeded(mf.m, request, results0)
    ensures AllGood(w, level, mf, results) && AllNeeded(mf.m, request, results)
    ensures DeliveredUpTo(w, level, Delivered(w, level, results0), results, target0, ObjectOf(w, level, mf), offset0,
                          length0)
  {
    hide *;
    results := results0;
    ghost var before := Delivered(w, level, results0);
    NothingDelivered(w, level, results0, target0, ObjectOf(w, level, mf), offset0);
    var offset, length, target := offset0, length0, target0;
    ghost var n := 0;
    while length > 0
      invariant n + length == length0 && offset == offset0 + n && target == target0 + n
      invariant AllGood(w, level, mf, results) && AllNeeded(mf.m, request, results)
      invariant DeliveredUpTo(w, level, before, results, target0, ObjectOf(w, level, mf), offset0, n)
    {
      var len;
      results, len := AddPiece(w, level, before, request, SliceDescriptor(target0, offset0, length0), n, results, mf,
                               offset, length, target);
      length := length - len;
      offset := offset + len;
      target := target + len;
      n := n + len;
    }
  }

  predicate Inside(object_: seq<bv8>, slices: seq<SliceDescriptor>) {
    forall i :: 0 <= i < |slices| ==> slices[i].offset + slices[i].size <= |object_|
  }

  method AddSlice(ghost w: World, ghost level: nat, ghost request: seq<SliceDescriptor>,
                  ghost done: seq<SliceDescriptor>, results0: seq<Piece>, mf: Mf, s: SliceDescriptor)
    returns (results: seq<Piece>)
    requires Known(w, level, mf) && s.offset + s.size <= |ObjectOf(w, level, mf)| && s in request
    requires AllGood(w, level, mf, results0) && AllNeeded(mf.m, request, results0)
    requires Delivered(w, level, results0) == Wanted(ObjectOf(w, level, mf), done)
    ensures AllGood(w, level, mf, results) && AllNeeded(mf.m, request, results)
    ensures Delivered(w, level, results) == Wanted(ObjectOf(w, level, mf), done + [s])
  {
    results := ResolveSliceOneLevel(w, level, request, results0, mf, s.offset, s.size, s.buf);
    WantedOneMore(ObjectOf(w, level, mf), done, s);
  }

  lemma {:induction false} NothingWanted(w: World, level: nat, mf: Mf, request: seq<SliceDescriptor>)
    ensures AllGood(w, level, mf, []) && AllNeeded(mf.m, request, [])
            && Delivered(w, level, []) == Wanted(ObjectOf(w, level, mf), [])
  {
  }

  method ResolveSlices(ghost w: World, ghost level: nat, mf: Mf, slices: seq<SliceDescriptor>)
    returns (results: seq<Piece>)
    requires Known(w, level, mf) && Inside(ObjectOf(w, level, mf), slices)
    ensures AllGood(w, level, mf, results) && AllNeeded(mf.m, slices, results)
    ensures Delivered(w, level, results) == Wanted(ObjectOf(w, level, mf), slices)
  {
    hide ObjectOf, Delivered, Wanted, Known, AllGood, AllNeeded;
    results := [];
    NothingWanted(w, level, mf, slices);
    for i := 0 to |slices|
      invariant AllGood(w, level, mf, results) && AllNeeded(mf.m, slices, results)
      invariant Delivered(w, level, results) == Wanted(ObjectOf(w, level, mf), slices[..i])
    {
      results := AddSlice(w, level, slices, slices[..i], results, mf, slices[i]);
      assert slices[..i + 1] == slices[..i] + [slices[i]];
    }
    assert slices[..|slices|] == slices;
  }

  ghost predicate FoundFits(w: World, t: nat, level: nat, name: seq<byte>, slices: seq<SliceDescriptor>) {
    var found := w.find(t, level, name);
    found.Some? ==> Known(w, level, found.value) && Inside(ObjectOf(w, level, found.value), slices)
  }

  method ResolveOneLevel(w: World, t: nat, level: nat, name: seq<byte>, slices: seq<SliceDescriptor>)
    returns (r: Option<seq<Piece>>)
    requires FoundFits(w, t, level, name, slices)
    ensures r.Some? <==> w.find(t, level, name).Some?
    ensures r.Some? ==>
              var mf := w.find(t, level, name).value;
              && AllGood(w, level, mf, r.value) && AllNeeded(mf.m, slices, r.value)
              && Delivered(w, level, r.value) == Wanted(ObjectOf(w, level, mf), slices)
  {
    var found := w.find(t, level, name);
    if found.None? {
      return None;
    }
    var results := ResolveSlices(w, level, found.value, slices);
    return Some(results);
  }

  // ------------------------------------------------------------------
  // Many levels
  // ------------------------------------------------------------------

  // data fragment f of chunk c, if the u-th lookup finds it at the next level, is the beginning of that object
  ghost predicate FragmentBelow(w: World, level: nat, mf: Mf, u: nat, c: nat, f: nat) {
    var found := w.find(u, level + 1, CacheName(mf.m.objectId, c, f));
    found.Some? ==> DataOf(w, level, mf)(c, f) <= ObjectOf(w, level + 1, found.value)
  }

  ghost predicate StoredBelow(w: World, level: nat, mf: Mf) {
    forall u: nat, c: nat, f: nat :: c < |mf.m.chunkSizes| && f < mf.m.scheme.k ==> FragmentBelow(w, level, mf, u, c, f)
  }

  // Whatever the cache answers at whatever moment describes the same bytes.
  ghost predicate Consistent(w: World, levels: nat) {
    && (forall t: nat, level: nat, name :: w.find(t, level, name).Some? ==>
          Known(w, level, w.find(t, level, name).value))
    && (forall t: nat, level: nat, name :: level + 1 < levels && w.find(t, level, name).Some? ==>
          StoredBelow(w, level, w.find(t, level, name).value))
  }

  function SliceOf(p: Piece): SliceDescriptor {
    SliceDescriptor(p.target, p.l.offset, p.l.length)
  }

  function NameOf(p: Piece): seq<byte> {
    CacheName(p.l.objectId, p.l.chunkId, p.l.fragmentId)
  }

  lemma {:induction false} SliceOfPrefix(a: seq<bv8>, b: seq<bv8>, offset: nat, len: nat)
    requires a <= b && offset + len <= |a|
    ensures Slice(a, offset, len) == Slice(b, offset, len)
  {
  }

  lemma {:induction false} WantedOne(object_: seq<bv8>, s: SliceDescriptor)
    ensures Wanted(object_, [s]) == BytesTo(s.buf, Slice(object_, s.offset, s.size))
  {
    assert [s][..0] == [];
    assert Wanted(object_, [s][..0]) == [];
  }

  // The next level's object holds exactly what the piece stands for.
  lemma {:induction false} PieceBelow(w: World, levels: nat, level: nat, mf: Mf, p: Piece, u: nat)
    requires Consistent(w, levels) && level + 1 < levels && Known(w, level, mf) && StoredBelow(w, level, mf)
    requires Good(w, level, mf, p)
    ensures FoundFits(w, u, level + 1, NameOf(p), [SliceOf(p)])
    ensures w.find(u, level + 1, NameOf(p)).Some? ==>
              Wanted(ObjectOf(w, level + 1, w.find(u, level + 1, NameOf(p)).value), [SliceOf(p)])
              == BytesTo(p.target, PieceData(w, level, p))
  {
    hide ObjectOf;
    assert FragmentBelow(w, level, mf, u, p.l.chunkId, p.l.fragmentId);
    if w.find(u, level + 1, NameOf(p)).Some? {
      var object_ := ObjectOf(w, level + 1, w.find(u, level + 1, NameOf(p)).value);
      var data := w.fragment(level, RefOf(p.l));
      assert data == DataOf(w, level, mf)(p.l.chunkId, p.l.fragmentId) <= object_;
      SliceOfPrefix(data, object_, p.l.offset, p.l.length);
      WantedOne(object_, SliceOf(p));
    }
  }

  // some manifest of the level lists the piece
  ghost predicate Served(w: World, level: nat, p: Piece) {
    exists t: nat, name :: w.find(t, level, name).Some? && Good(w, level, w.find(t, level, name).value, p)
  }

  ghost predicate AllServed(w: World, level: nat, ps: seq<Piece>) {
    forall i :: 0 <= i < |ps| ==> Served(w, level, ps[i])
  }

  lemma {:induction false} GoodIsServed(w: World, t: nat, level: nat, name: seq<byte>, ps: seq<Piece>)
    requires w.find(t, level, name).Some? && AllGood(w, level, w.find(t, level, name).value, ps)
    ensures AllServed(w, level, ps)
  {
    forall i | 0 <= i < |ps|
      ensures Served(w, level, ps[i])
    {
      assert Good(w, level, w.find(t, level, name).value, ps[i]);
    }
  }

  /** A lookup that the request depends on failed before t': that of its own manifest, made at t, or,
      for some piece of the found manifest that a slice needs, later and a level below, one that the
      piece depends on. */
  ghost predicate Missed(w: World, t: nat, t': nat, levels: nat, level: nat, name: seq<byte>,
                         slices: seq<SliceDescriptor>)
    decreases levels - level
  {
    || w.find(t, level, name).None?
    || (level + 1 < levels && exists p: Piece, u: nat ::
            t < u < t' && MissedPiece(w, u, t', levels, level, w.find(t, level, name).value, slices, p))
  }

  ghost predicate MissedPiece(w: World, u: nat, t': nat, levels: nat, level: nat, mf: Mf,
                              slices: seq<SliceDescriptor>, p: Piece)
    requires level + 1 < levels
    decreases levels - level, 0
  {
    Good(w, level, mf, p) && Needed(mf.m, slices, p) && Missed(w, u, t', levels, level + 1, NameOf(p), [SliceOf(p)])
  }

  /** Through any number of levels, a resolved request delivers exactly the bytes of the object that
      the first lookup described, to exactly the addresses asked for, in order; and it is given up
      only when the lookup of a manifest that the request depends on failed. */
  method ResolveManyLevels(w: World, t: nat, levels: nat, level: nat, name: seq<byte>, slices: seq<SliceDescriptor>)
    returns (r: Option<seq<Piece>>, t': nat)
    requires level < levels && Consistent(w, levels) && FoundFits(w, t, level, name, slices)
    ensures t < t' && (r.None? ==> Missed(w, t, t', levels, level, name, slices))
    ensures r.Some? ==>
              && w.find(t, level, name).Some?
              && Delivered(w, levels - 1, r.value) == Wanted(ObjectOf(w, level, w.find(t, level, name).value), slices)
              && AllServed(w, levels - 1, r.value)
    decreases levels - level, 1
  {
    hide ObjectOf, Delivered, Wanted, Known, FoundFits, StoredBelow, AllServed, PieceData, Good, MissedPiece;
    t' := t + 1;
    var locations := ResolveOneLevel(w, t, level, name, slices);
    if locations.None? {
      return None, t';
    }
    if level + 1 < levels {
      r, t' := ResolveLocations(w, t, levels, level, name, slices, locations.value);
    } else {
      r := locations;
      GoodIsServed(w, t, level, name, locations.value);
    }
  }

  lemma {:induction false} AllServedConcat(w: World, level: nat, ps: seq<Piece>, qs: seq<Piece>)
    requires AllServed(w, level, ps) && AllServed(w, level, qs)
    ensures AllServed(w, level, ps + qs)
  {
  }

  lemma {:induction false} NeededAt(m: Manifest, request: seq<SliceDescriptor>, ps: seq<Piece>, i: nat)
    requires AllNeeded(m, request, ps) && i < |ps|
    ensures Needed(m, request, ps[i])
  {
  }

  // a piece whose own lookups failed is a reason to give up
  lemma {:induction false} MissedBelow(w: World, t: nat, u: nat, t': nat, levels: nat, level: nat, name: seq<byte>,
                                       slices: seq<SliceDescriptor>, p: Piece)
    requires level + 1 < levels && t < u < t' && w.find(t, level, name).Some?
    requires Good(w, level, w.find(t, level, name).value, p) && Needed(w.find(t, level, name).value.m, slices, p)
    requires Missed(w, u, t', levels, level + 1, NameOf(p), [SliceOf(p)])
    ensures Missed(w, t, t', levels, level, name, slices)
  {
    hide Good, Needed;
    assert MissedPiece(w, u, t', levels, level, w.find(t, level, name).value, slices, p);
  }

  // the next location's bytes after those already resolved
  lemma {:induction false} ResolvedOneMore(w: World, last: nat, level: nat, done: seq<Piece>, more: seq<Piece>,
                                           locations: seq<Piece>, i: nat)
    requires i < |locations| && Delivered(w, last, done) == Delivered(w, level, locations[..i])
    requires Delivered(w, last, more) == BytesTo(locations[i].target, PieceData(w, level, locations[i]))
    ensures Delivered(w, last, done + more) == Delivered(w, level, locations[..i + 1])
  {
    hide *;
    DeliveredConcat(w, last, done, more);
    DeliveredOneMore(w, level, locations[..i], locations[i]);
    PrefixOneMore(locations, i);
  }

  lemma {:induction false} FoundIsStored(w: World, levels: nat, level: nat, t: nat, name: seq<byte>)
    requires Consistent(w, levels) && level + 1 < levels && w.find(t, level, name).Some?
    ensures Known(w, level, w.find(t, level, name).value) && StoredBelow(w, level, w.find(t, level, name).value)
  {
  }

  lemma {:induction false} NothingResolved(w: World, last: nat, level: nat, locations: seq<Piece>)
    ensures Delivered(w, last, []) == Delivered(w, level, locations[..0]) && AllServed(w, last, [])
  {
  }

  lemma {:induction false} GoodAt(w: World, level: nat, mf: Mf, ps: seq<Piece>, i: nat)
    requires AllGood(w, level, mf, ps) && i < |ps|
    ensures Good(w, level, mf, ps[i])
  {
  }

  // every location of this level is resolved at the next one
  method ResolveLocations(w: World, t: nat, levels: nat, level: nat, ghost name: seq<byte>,
                          ghost slices: seq<SliceDescriptor>, locations: seq<Piece>)
    returns (r: Option<seq<Piece>>, t': nat)
    requires level + 1 < levels && Consistent(w, levels) && w.find(t, level, name).Some?
    requires AllGood(w, level, w.find(t, level, name).value, locations)
    requires AllNeeded(w.find(t, level, name).value.m, slices, locations)
    ensures t < t' && (r.None? ==> Missed(w, t, t', levels, level, name, slices))
    ensures r.Some? ==>
              Delivered(w, levels - 1, r.value) == Delivered(w, level, locations) && AllServed(w, levels - 1, r.value)
    decreases levels - level, 0
  {
    hide *;
    ghost var mf := w.find(t, level, name).value;
    FoundIsStored(w, levels, level, t, name);
    var final: seq<Piece> := [];
    t' := t + 1;
    NothingResolved(w, levels - 1, level, locations);
    for i := 0 to |locations|
      invariant t < t' && AllServed(w, levels - 1, final)
      invariant Delivered(w, levels - 1, final) == Delivered(w, level, locations[..i])
    {
      var p, u := locations[i], t';
      GoodAt(w, level, mf, locations, i);
      PieceBelow(w, levels, level, mf, p, u);
      var more;
      more, t' := ResolveManyLevels(w, u, levels, level + 1, NameOf(p), [SliceOf(p)]);
      if more.None? {
        NeededAt(mf.m, slices, locations, i);
        MissedBelow(w, t, u, t', levels, level, name, slices, p);
        return None, t';
      }
      AllServedConcat(w, levels - 1, final, more.value);
      ResolvedOneMore(w, levels - 1, level, final, more.value, locations, i);
      final := final + more.value;
    }
    assert locations[..|locations|] == locations;
    r := Some(final);
  }

  // ------------------------------------------------------------------
  // Tiling
  // ------------------------------------------------------------------

  // the targets of the pieces cut [lo, hi) into consecutive nonempty stretches
  predicate Tiles(ps: seq<Piece>, lo: nat, hi: nat) {
    if ps == [] then lo == hi
    else
      var p := ps[|ps| - 1];
      p.l.length > 0 && p.target + p.l.length == hi && lo <= p.target && Tiles(ps[..|ps| - 1], lo, p.target)
  }

  lemma {:induction false} LastBytes(front: Delivery, target: nat, piece: seq<bv8>, lo: nat, data: seq<bv8>)
    requires front + BytesTo(target, piece) == BytesTo(lo, data) && piece != []
    ensures |piece| <= |data| && target + |piece| == lo + |data|
    ensures front == BytesTo(lo, data[..|data| - |piece|])
  {
    var all := front + BytesTo(target, piece);
    assert |all| == |front| + |piece| == |data|;
    assert all[|front|] == BytesTo(target, piece)[0] == (target, piece[0]);
    assert BytesTo(lo, data)[|front|] == (lo + |front|, data[|front|]);
    assert front == all[..|front|];
    assert BytesTo(lo, data)[..|front|] == BytesTo(lo, data[..|front|]);
  }

  /** The pieces resolved for one slice tile its buffer exactly. */
  lemma {:induction false} ResolvedPiecesTile(w: World, level: nat, ps: seq<Piece>, lo: nat, data: seq<bv8>)
    requires Delivered(w, level, ps) == BytesTo(lo, data)
    requires forall i :: 0 <= i < |ps| ==> PieceFits(w, level, ps[i])
    ensures Tiles(ps, lo, lo + |data|)
    decreases |ps|
  {
    if ps != [] {
      var p := ps[|ps| - 1];
      assert PieceFits(w, level, p);
      LastBytes(Delivered(w, level, ps[..|ps| - 1]), p.target, PieceData(w, level, p), lo, data);
      ResolvedPiecesTile(w, level, ps[..|ps| - 1], lo, data[..|data| - p.l.length]);
    }
  }
}
