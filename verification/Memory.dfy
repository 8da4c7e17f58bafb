/** The caller's memory: stretches of it, writes to them, and requests for disjoint stretches. */
module Memory {
  import opened Bytes
  import opened ObjectBytes
  import opened ReadPath

  function Put(mem: seq<bv8>, addr: nat, data: seq<bv8>): (r: seq<bv8>)
    requires addr + |data| <= |mem|
    ensures |r| == |mem|
  {
    mem[..addr] + data + mem[addr + |data|..]
  }

  predicate Apart(lo: nat, n: nat, lo': nat, n': nat) {
    n == 0 || n' == 0 || lo + n <= lo' || lo' + n' <= lo
  }

  // the stretch of memory at addr holds the data
  predicate Region(mem: seq<bv8>, addr: nat, data: seq<bv8>) {
    addr + |data| <= |mem| && mem[addr..addr + |data|] == data
  }

  ghost predicate Holds(mem: seq<bv8>, d: Delivery) {
    forall i :: 0 <= i < |d| ==> d[i].0 < |mem| && mem[d[i].0] == d[i].1
  }

  lemma {:induction false} PutRegion(mem: seq<bv8>, addr: nat, data: seq<bv8>)
    requires addr + |data| <= |mem|
    ensures Region(Put(mem, addr, data), addr, data)
  {
  }

  lemma {:induction false} HoldsRegion(mem: seq<bv8>, addr: nat, data: seq<bv8>)
    requires Region(mem, addr, data)
    ensures Holds(mem, BytesTo(addr, data))
  {
    forall i | 0 <= i < |data|
      ensures BytesTo(addr, data)[i].0 < |mem| && mem[BytesTo(addr, data)[i].0] == BytesTo(addr, data)[i].1
    {
      assert mem[addr..addr + |data|][i] == mem[addr + i];
    }
  }

  lemma {:induction false} HoldsConcat(mem: seq<bv8>, a: Delivery, b: Delivery)
    ensures Holds(mem, a + b) <==> Holds(mem, a) && Holds(mem, b)
  {
    if Holds(mem, a + b) {
      assert forall i :: 0 <= i < |a| ==> a[i] == (a + b)[i];
      assert forall i :: 0 <= i < |b| ==> b[i] == (a + b)[|a| + i];
    }
  }

  method WriteBytes(mem: array<bv8>, addr: nat, data: seq<bv8>)
    requires addr + |data| <= mem.Length
    modifies mem
    ensures mem[..] == Put(old(mem[..]), addr, data)
  {
    for i := 0 to |data|
      invariant forall j :: 0 <= j < mem.Length && !(addr <= j < addr + i) ==> mem[j] == old(mem[j])
      invariant forall j :: addr <= j < addr + i ==> mem[j] == data[j - addr]
    {
      mem[addr + i] := data[i];
    }
  }

  // ------------------------------------------------------------------
  // Disjoint pieces
  // ------------------------------------------------------------------

  predicate AllApart(ps: seq<Piece>) {
    forall i, j :: 0 <= i < j < |ps| ==> Apart(ps[i].target, ps[i].l.length, ps[j].target, ps[j].l.length)
  }

  predicate Covers(p: Piece, a: nat) {
    p.target <= a < p.target + p.l.length
  }

  predicate CoveredBy(ps: seq<Piece>, a: nat) {
    exists i :: 0 <= i < |ps| && Covers(ps[i], a)
  }

  ghost predicate DistinctAddrs(d: Delivery) {
    forall i, j :: 0 <= i < j < |d| ==> d[i].0 != d[j].0
  }

  ghost predicate GoesTo(d: Delivery, a: nat) {
    exists i :: 0 <= i < |d| && d[i].0 == a
  }

  lemma {:induction false} GoesToConcat(d: Delivery, e: Delivery, a: nat)
    ensures GoesTo(d + e, a) <==> GoesTo(d, a) || GoesTo(e, a)
  {
    if i :| 0 <= i < |d| && d[i].0 == a {
      assert (d + e)[i].0 == a;
    }
    if i :| 0 <= i < |e| && e[i].0 == a {
      assert (d + e)[|d| + i].0 == a;
    }
    if i :| 0 <= i < |d + e| && (d + e)[i].0 == a {
      assert i < |d| ==> d[i].0 == a;
      assert i >= |d| ==> e[i - |d|].0 == a;
    }
  }

  lemma {:induction false} GoesToBytes(addr: nat, data: seq<bv8>, a: nat)
    ensures GoesTo(BytesTo(addr, data), a) <==> addr <= a < addr + |data|
  {
    if addr <= a < addr + |data| {
      assert BytesTo(addr, data)[a - addr].0 == a;
    }
  }

  lemma {:induction false} DistinctConcat(d: Delivery, e: Delivery)
    ensures DistinctAddrs(d + e) <==>
              DistinctAddrs(d) && DistinctAddrs(e) && forall a :: !(GoesTo(d, a) && GoesTo(e, a))
  {
    if DistinctAddrs(d + e) {
      assert forall i :: 0 <= i < |d| ==> (d + e)[i] == d[i];
      assert forall i :: 0 <= i < |e| ==> (d + e)[|d| + i] == e[i];
    } else {
      var i, j :| 0 <= i < j < |d + e| && (d + e)[i].0 == (d + e)[j].0;
      var a := (d + e)[i].0;
      if i < |d| <= j && DistinctAddrs(d) {
        assert d[i].0 == a && e[j - |d|].0 == a;
        assert GoesTo(d, a) && GoesTo(e, a);
      } else if j < |d| {
        assert d[i].0 == d[j].0;
      } else if i >= |d| {
        assert e[i - |d|].0 == e[j - |d|].0;
      }
    }
  }

  lemma {:induction false} DistinctBytes(addr: nat, data: seq<bv8>)
    ensures DistinctAddrs(BytesTo(addr, data))
  {
  }

  ghost predicate AllFit(w: World, level: nat, ps: seq<Piece>) {
    forall i :: 0 <= i < |ps| ==> PieceFits(w, level, ps[i])
  }

  lemma {:induction false} FitLength(w: World, level: nat, p: Piece)
    requires PieceFits(w, level, p)
    ensures |PieceData(w, level, p)| == p.l.length
  {
  }

  // the addresses that the pieces deliver to are those their targets cover
  lemma {:induction false} DeliveredTo(w: World, level: nat, ps: seq<Piece>, a: nat)
    requires AllFit(w, level, ps)
    ensures GoesTo(Delivered(w, level, ps), a) <==> CoveredBy(ps, a)
    decreases |ps|
  {
    if ps != [] {
      var front, p := ps[..|ps| - 1], ps[|ps| - 1];
      hide PieceFits, PieceData, BytesTo;
      DeliveredTo(w, level, front, a);
      FitLength(w, level, p);
      GoesToConcat(Delivered(w, level, front), BytesTo(p.target, PieceData(w, level, p)), a);
      GoesToBytes(p.target, PieceData(w, level, p), a);
      CoveredFront(ps, a);
    }
  }

  lemma {:induction false} CoveredFront(ps: seq<Piece>, a: nat)
    requires ps != []
    ensures CoveredBy(ps, a) <==> CoveredBy(ps[..|ps| - 1], a) || Covers(ps[|ps| - 1], a)
  {
    var front := ps[..|ps| - 1];
    if i :| 0 <= i < |ps| && Covers(ps[i], a) {
      assert i < |front| ==> Covers(front[i], a);
    }
    if i :| 0 <= i < |front| && Covers(front[i], a) {
      assert Covers(ps[i], a);
    }
  }

  // stretches without a common address are apart
  lemma {:induction false} NoCommonAddress(p: Piece, q: Piece)
    requires forall a: nat :: !(Covers(p, a) && Covers(q, a))
    ensures Apart(p.target, p.l.length, q.target, q.l.length)
  {
    assert p.l.length > 0 ==> Covers(p, p.target);
    assert q.l.length > 0 ==> Covers(q, q.target);
    if !Apart(p.target, p.l.length, q.target, q.l.length) {
      assert Covers(p, p.target) && Covers(q, q.target);
    }
  }

  /** Pieces that deliver every byte to an address of its own do not overlap. */
  lemma {:induction false} DistinctIsApart(w: World, level: nat, ps: seq<Piece>)
    requires AllFit(w, level, ps) && DistinctAddrs(Delivered(w, level, ps))
    ensures AllApart(ps)
    decreases |ps|
  {
    if ps != [] {
      var front, p := ps[..|ps| - 1], ps[|ps| - 1];
      DistinctConcat(Delivered(w, level, front), BytesTo(p.target, PieceData(w, level, p)));
      DistinctIsApart(w, level, front);
      forall i | 0 <= i < |front|
        ensures Apart(ps[i].target, ps[i].l.length, p.target, p.l.length)
      {
        LastIsApart(w, level, front, p, i);
      }
    }
  }

  lemma {:induction false} LastIsApart(w: World, level: nat, front: seq<Piece>, p: Piece, i: nat)
    requires AllFit(w, level, front) && PieceFits(w, level, p) && i < |front|
    requires forall a :: !(GoesTo(Delivered(w, level, front), a)
                           && GoesTo(BytesTo(p.target, PieceData(w, level, p)), a))
    ensures Apart(front[i].target, front[i].l.length, p.target, p.l.length)
  {
    hide Delivered, PieceData, BytesTo, PieceFits;
    FitLength(w, level, p);
    forall a: nat
      ensures !(Covers(front[i], a) && Covers(p, a))
    {
      DeliveredTo(w, level, front, a);
      GoesToBytes(p.target, PieceData(w, level, p), a);
    }
    NoCommonAddress(front[i], p);
  }

  lemma {:induction false} RegionsHold(w: World, level: nat, ps: seq<Piece>, mem: seq<bv8>)
    requires forall i :: 0 <= i < |ps| ==> Region(mem, ps[i].target, PieceData(w, level, ps[i]))
    ensures Holds(mem, Delivered(w, level, ps))
    decreases |ps|
  {
    if ps != [] {
      hide PieceData, BytesTo, Region, Holds;
      var front, p := ps[..|ps| - 1], ps[|ps| - 1];
      RegionsHold(w, level, front, mem);
      HoldsRegion(mem, p.target, PieceData(w, level, p));
      HoldsConcat(mem, Delivered(w, level, front), BytesTo(p.target, PieceData(w, level, p)));
    } else {
      assert Delivered(w, level, ps) == [];
    }
  }

  // ------------------------------------------------------------------
  // Requests: slices of several objects, each with a buffer of its own
  // ------------------------------------------------------------------

  datatype ObjectSlices = ObjectSlices(name: seq<byte>, slices: seq<SliceDescriptor>)

  predicate InSlice(s: SliceDescriptor, a: nat) {
    s.buf <= a < s.buf + s.size
  }

  predicate InSlices(slices: seq<SliceDescriptor>, a: nat) {
    exists i :: 0 <= i < |slices| && InSlice(slices[i], a)
  }

  predicate Asks(os: ObjectSlices, a: nat) {
    InSlices(os.slices, a)
  }

  // the buffers of one object's slices lie in the memory and do not overlap
  predicate OwnBuffers(os: ObjectSlices, size: nat) {
    && (forall i :: 0 <= i < |os.slices| ==> os.slices[i].buf + os.slices[i].size <= size)
    && (forall i, j :: 0 <= i < j < |os.slices| ==>
          Apart(os.slices[i].buf, os.slices[i].size, os.slices[j].buf, os.slices[j].size))
  }

  ghost predicate DisjointBuffers(objects: seq<ObjectSlices>, size: nat) {
    && (forall i :: 0 <= i < |objects| ==> OwnBuffers(objects[i], size))
    && (forall i, j, a: nat :: 0 <= i < j < |objects| ==> !(Asks(objects[i], a) && Asks(objects[j], a)))
  }

  lemma {:induction false} WantedTo(object_: seq<bv8>, slices: seq<SliceDescriptor>, a: nat)
    requires Inside(object_, slices)
    ensures GoesTo(Wanted(object_, slices), a) <==> InSlices(slices, a)
    decreases |slices|
  {
    if slices != [] {
      var front, s := slices[..|slices| - 1], slices[|slices| - 1];
      var data := Slice(object_, s.offset, s.size);
      assert |data| == s.size;
      hide Slice, BytesTo;
      WantedTo(object_, front, a);
      GoesToConcat(Wanted(object_, front), BytesTo(s.buf, data), a);
      GoesToBytes(s.buf, data, a);
      AsksFront(slices, a);
    }
  }

  lemma {:induction false} AsksFront(slices: seq<SliceDescriptor>, a: nat)
    requires slices != []
    ensures InSlices(slices, a) <==> InSlices(slices[..|slices| - 1], a) || InSlice(slices[|slices| - 1], a)
  {
    var front := slices[..|slices| - 1];
    if i :| 0 <= i < |slices| && InSlice(slices[i], a) {
      assert i < |front| ==> InSlice(front[i], a);
    }
    if i :| 0 <= i < |front| && InSlice(front[i], a) {
      assert InSlice(slices[i], a);
    }
  }

  lemma {:induction false} WantedDistinct(object_: seq<bv8>, slices: seq<SliceDescriptor>)
    requires Inside(object_, slices)
    requires forall i, j :: 0 <= i < j < |slices| ==>
               Apart(slices[i].buf, slices[i].size, slices[j].buf, slices[j].size)
    ensures DistinctAddrs(Wanted(object_, slices))
    decreases |slices|
  {
    if slices != [] {
      var front, s := slices[..|slices| - 1], slices[|slices| - 1];
      WantedDistinct(object_, front);
      var data := Slice(object_, s.offset, s.size);
      assert |data| == s.size;
      hide Slice, BytesTo;
      DistinctBytes(s.buf, data);
      forall a: nat
        ensures !(GoesTo(Wanted(object_, front), a) && GoesTo(BytesTo(s.buf, data), a))
      {
        WantedTo(object_, front, a);
        GoesToBytes(s.buf, data, a);
      }
      DistinctConcat(Wanted(object_, front), BytesTo(s.buf, data));
    }
  }
}
