/** Reads through the proxy, and which objects take that way. */
module ProxyRead {
  import opened Sequences
  import opened Bytes
  import opened Llio
  import opened ObjectBytes
  import opened ReadPath
  import opened Memory
  import opened DirectRead

  ghost predicate HoldsObject(mem: seq<bv8>, os: ObjectSlices, v: seq<bv8>) {
    Inside(v, os.slices) && Holds(mem, Wanted(v, os.slices))
  }

  // nothing but addresses that one of the objects asks for differs
  ghost predicate SameUnasked(before: seq<bv8>, after: seq<bv8>, objects: seq<ObjectSlices>) {
    |after| == |before| && forall a :: 0 <= a < |before| && !Asked(objects, a) ==> after[a] == before[a]
  }

  predicate Asked(objects: seq<ObjectSlices>, a: nat) {
    exists i :: 0 <= i < |objects| && Asks(objects[i], a)
  }

  // ------------------------------------------------------------------
  // One slice and one object
  // ------------------------------------------------------------------

  lemma {:induction false} HoldsKept(before: seq<bv8>, after: seq<bv8>, lo: nat, n: nat, d: Delivery)
    requires OnlyRange(before, after, lo, n) && Holds(before, d)
    requires forall a: nat :: GoesTo(d, a) ==> !(lo <= a < lo + n)
    ensures Holds(after, d)
  {
    forall i | 0 <= i < |d|
      ensures d[i].0 < |after| && after[d[i].0] == d[i].1
    {
      assert GoesTo(d, d[i].0);
    }
  }

  // slice k is written after the slices before it
  lemma {:induction false} OneMoreSlice(before: seq<bv8>, after: seq<bv8>, v: seq<bv8>, os: ObjectSlices, k: nat)
    requires k < |os.slices| && Inside(v, os.slices) && OwnBuffers(os, |before|)
             && Holds(before, Wanted(v, os.slices[..k]))
    requires OnlyRange(before, after, os.slices[k].buf, os.slices[k].size)
    requires Region(after, os.slices[k].buf, Slice(v, os.slices[k].offset, os.slices[k].size))
    ensures Holds(after, Wanted(v, os.slices[..k + 1]))
  {
    var front, s := os.slices[..k], os.slices[k];
    forall a: nat | GoesTo(Wanted(v, front), a)
      ensures !(s.buf <= a < s.buf + s.size)
    {
      WantedTo(v, front, a);
      var i :| 0 <= i < |front| && InSlice(front[i], a);
      assert Apart(os.slices[i].buf, os.slices[i].size, s.buf, s.size);
    }
    hide Wanted, Holds, OnlyRange, Region, Slice, OwnBuffers, Inside;
    HoldsKept(before, after, s.buf, s.size, Wanted(v, front));
    HoldsRegion(after, s.buf, Slice(v, s.offset, s.size));
    WantedOneMore(v, front, s);
    HoldsConcat(after, Wanted(v, front), BytesTo(s.buf, Slice(v, s.offset, s.size)));
    PrefixOneMore(os.slices, k);
  }

  lemma {:induction false} SliceIsAsked(start: seq<bv8>, before: seq<bv8>, after: seq<bv8>, os: ObjectSlices, k: nat)
    requires k < |os.slices| && SameUnasked(start, before, [os])
    requires OnlyRange(before, after, os.slices[k].buf, os.slices[k].size)
    ensures SameUnasked(start, after, [os])
  {
    forall a | 0 <= a < |start| && !Asked([os], a)
      ensures after[a] == start[a]
    {
      assert !Asks([os][0], a);
      assert !InSlice(os.slices[k], a);
    }
  }

  method FillObject(v: seq<bv8>, os: ObjectSlices, mem: array<bv8>)
    requires Inside(v, os.slices) && OwnBuffers(os, mem.Length)
    modifies mem
    ensures HoldsObject(mem[..], os, v) && SameUnasked(old(mem[..]), mem[..], [os])
  {
    ghost var start := mem[..];
    for k := 0 to |os.slices|
      invariant Holds(mem[..], Wanted(v, os.slices[..k])) && SameUnasked(start, mem[..], [os])
    {
      hide Holds, Wanted, SameUnasked, OnlyRange, Region;
      var s := os.slices[k];
      ghost var before := mem[..];
      var data := Slice(v, s.offset, s.size);
      PutOnlyRange(before, s.buf, data, s.size);
      PutRegion(before, s.buf, data);
      WriteBytes(mem, s.buf, data);
      OneMoreSlice(before, mem[..], v, os, k);
      SliceIsAsked(start, before, mem[..], os, k);
    }
    assert os.slices[..|os.slices|] == os.slices;
  }

  // ------------------------------------------------------------------
  // Many objects
  // ------------------------------------------------------------------

  lemma {:induction false} ObjectKept(before: seq<bv8>, after: seq<bv8>, others: seq<ObjectSlices>, os: ObjectSlices,
                                      v: seq<bv8>)
    requires SameUnasked(before, after, others) && HoldsObject(before, os, v)
    requires forall a: nat :: Asks(os, a) ==> !Asked(others, a)
    ensures HoldsObject(after, os, v)
  {
    var d := Wanted(v, os.slices);
    forall i | 0 <= i < |d|
      ensures d[i].0 < |after| && after[d[i].0] == d[i].1
    {
      assert GoesTo(d, d[i].0);
      WantedTo(v, os.slices, d[i].0);
    }
  }

  ghost predicate Filled(e: Env, t: nat, via: seq<ObjectSlices>, n: nat, mem: seq<bv8>) {
    forall i :: 0 <= i < |via| && i < n ==> HoldsObject(mem, via[i], e.object_(t, via[i].name))
  }

  lemma {:induction false} AskedOne(os: ObjectSlices, a: nat)
    ensures Asked([os], a) <==> Asks(os, a)
  {
    assert [os][0] == os;
  }

  lemma {:induction false} OneMoreFilled(e: Env, t: nat, via: seq<ObjectSlices>, n: nat, before: seq<bv8>,
                                         after: seq<bv8>)
    requires n < |via| && DisjointBuffers(via, |before|) && Filled(e, t, via, n, before)
    requires SameUnasked(before, after, [via[n]]) && HoldsObject(after, via[n], e.object_(t, via[n].name))
    ensures Filled(e, t, via, n + 1, after)
  {
    forall i | 0 <= i < n
      ensures HoldsObject(after, via[i], e.object_(t, via[i].name))
    {
      forall a: nat | Asks(via[i], a)
        ensures !Asked([via[n]], a)
      {
        AskedOne(via[n], a);
      }
      ObjectKept(before, after, [via[n]], via[i], e.object_(t, via[i].name));
    }
  }

  lemma {:induction false} OneOfMany(start: seq<bv8>, before: seq<bv8>, after: seq<bv8>, via: seq<ObjectSlices>, n: nat)
    requires n < |via| && SameUnasked(start, before, via) && SameUnasked(before, after, [via[n]])
    ensures SameUnasked(start, after, via)
  {
    forall a | 0 <= a < |start| && !Asked(via, a)
      ensures after[a] == start[a]
    {
      AskedOne(via[n], a);
    }
  }

  datatype Outcome = Returned | Threw | Aborted

  // the proxy, asked at t, has the first n objects, with all the slices asked for, and does not break off
  predicate AnswersFirst(e: Env, t: nat, via: seq<ObjectSlices>, n: nat) {
    forall i :: 0 <= i < |via| && i < n ==>
      e.proxyBreaks(t) != Some(i) && Inside(e.object_(t, via[i].name), via[i].slices)
  }

  predicate ProxyAnswers(e: Env, t: nat, via: seq<ObjectSlices>) {
    AnswersFirst(e, t, via, |via|)
  }

  lemma {:induction false} OneMoreAnswered(e: Env, t: nat, via: seq<ObjectSlices>, n: nat)
    requires n < |via| && AnswersFirst(e, t, via, n)
    ensures AnswersFirst(e, t, via, n + 1) <==>
              e.proxyBreaks(t) != Some(n) && Inside(e.object_(t, via[n].name), via[n].slices)
    ensures ProxyAnswers(e, t, via) ==> AnswersFirst(e, t, via, n + 1)
  {
    hide Inside;
  }

  /** The read returns if and only if the proxy has all that it is asked for and does not break off, and
      then every slice is filled; otherwise it throws.  No other address is touched. */
  method SlowPath(e: Env, t: nat, via: seq<ObjectSlices>, mem: array<bv8>) returns (outcome: Outcome, t': nat)
    requires DisjointBuffers(via, mem.Length)
    modifies mem
    ensures SameUnasked(old(mem[..]), mem[..], via)
    ensures outcome.Returned? ==> Filled(e, t, via, |via|, mem[..])
    ensures t < t' && !outcome.Aborted? && (outcome.Returned? <==> ProxyAnswers(e, t, via))
  {
    assert AnswersFirst(e, t, via, 0);
    hide SameUnasked, Filled, HoldsObject, AnswersFirst;
    t' := t + 1;
    ghost var start := mem[..];
    NothingFilled(e, t, via, start);
    for n := 0 to |via|
      invariant SameUnasked(start, mem[..], via) && Filled(e, t, via, n, mem[..]) && AnswersFirst(e, t, via, n)
    {
      OneMoreAnswered(e, t, via, n);
      var v := e.object_(t, via[n].name);
      if e.proxyBreaks(t) == Some(n) || !Inside(v, via[n].slices) {
        return Threw, t';
      }
      ghost var before := mem[..];
      FillObject(v, via[n], mem);
      OneMoreFilled(e, t, via, n, before, mem[..]);
      OneOfMany(start, before, mem[..], via, n);
    }
    return Returned, t';
  }

  lemma {:induction false} NothingFilled(e: Env, t: nat, via: seq<ObjectSlices>, mem: seq<bv8>)
    ensures SameUnasked(mem, mem, via) && Filled(e, t, via, 0, mem)
  {
  }
}
