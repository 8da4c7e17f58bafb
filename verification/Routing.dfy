/** Which objects of a request are read directly and which go through the proxy. */
module Routing {
  import opened Sequences
  import opened Bytes
  import opened Llio
  import opened ObjectBytes
  import opened ReadPath
  import opened Memory
  import opened DirectRead
  import opened ProxyRead

  // the bytes an object of that name had at a moment, at the proxy or in a manifest of the cache
  ghost predicate VersionAt(e: Env, name: seq<byte>, v: seq<bv8>, t: nat) {
    || v == e.object_(t, name)
    || (e.w.find(t, 0, name).Some? && v == ObjectOf(e.w, 0, e.w.find(t, 0, name).value))
  }

  // at some moment from `from` on, and before `to`
  ghost predicate Version(e: Env, name: seq<byte>, v: seq<bv8>, from: nat, to: nat) {
    exists t: nat :: from <= t < to && VersionAt(e, name, v, t)
  }

  // the slices lie inside whatever object the cache describes under that name
  ghost predicate RequestsFit(e: Env, objects: seq<ObjectSlices>) {
    forall i, t: nat :: 0 <= i < |objects| ==> FoundFits(e.w, t, 0, objects[i].name, objects[i].slices)
  }

  // vs[i] is the version that object i is read in directly, if it is
  type Routes = seq<Option<seq<bv8>>>

  ghost function ShortWanted(objects: seq<ObjectSlices>, vs: Routes): Delivery
    requires |vs| <= |objects|
    decreases |vs|
  {
    if vs == [] then []
    else
      var n := |vs| - 1;
      ShortWanted(objects, vs[..n]) + (if vs[n].Some? then Wanted(vs[n].value, objects[n].slices) else [])
  }

  ghost predicate Versions(e: Env, objects: seq<ObjectSlices>, vs: Routes, from: nat, to: nat)
    requires |vs| <= |objects|
  {
    forall i :: 0 <= i < |vs| && vs[i].Some? ==> Version(e, objects[i].name, vs[i].value, from, to)
  }

  predicate RoutesInside(objects: seq<ObjectSlices>, vs: Routes)
    requires |vs| <= |objects|
  {
    forall i :: 0 <= i < |vs| && vs[i].Some? ==> Inside(vs[i].value, objects[i].slices)
  }

  // `via` are the other objects, in order; at[k] is the index of via[k]
  ghost predicate ViaOf(objects: seq<ObjectSlices>, vs: Routes, via: seq<ObjectSlices>, at: seq<nat>)
    requires |vs| <= |objects|
  {
    && |via| == |at|
    && (forall k, l :: 0 <= k < l < |at| ==> at[k] < at[l])
    && (forall k :: 0 <= k < |at| ==> at[k] < |vs| && vs[at[k]].None? && via[k] == objects[at[k]])
    && (forall i :: 0 <= i < |vs| && vs[i].None? ==> i in at)
  }

  lemma {:induction false} ShortWantedStep(objects: seq<ObjectSlices>, vs: Routes, v: Option<seq<bv8>>)
    requires |vs| < |objects|
    ensures ShortWanted(objects, vs + [v])
         == ShortWanted(objects, vs) + (if v.Some? then Wanted(v.value, objects[|vs|].slices) else [])
  {
    assert (vs + [v])[..|vs|] == vs;
  }

  // ------------------------------------------------------------------
  // The addresses of the direct part
  // ------------------------------------------------------------------

  lemma {:induction false} ShortWantedTo(e: Env, objects: seq<ObjectSlices>, vs: Routes, a: nat)
    requires |vs| <= |objects| && RoutesInside(objects, vs) && GoesTo(ShortWanted(objects, vs), a)
    ensures exists i :: 0 <= i < |vs| && vs[i].Some? && Asks(objects[i], a)
    decreases |vs|
  {
    var n := |vs| - 1;
    var front := ShortWanted(objects, vs[..n]);
    var last := if vs[n].Some? then Wanted(vs[n].value, objects[n].slices) else [];
    GoesToConcat(front, last, a);
    if GoesTo(front, a) {
      ShortWantedTo(e, objects, vs[..n], a);
    } else {
      WantedTo(vs[n].value, objects[n].slices, a);
    }
  }

  lemma {:induction false} ShortWantedDistinct(e: Env, objects: seq<ObjectSlices>, vs: Routes, size: nat)
    requires |vs| <= |objects| && RoutesInside(objects, vs) && DisjointBuffers(objects, size)
    ensures DistinctAddrs(ShortWanted(objects, vs))
    decreases |vs|
  {
    if vs != [] {
      var n := |vs| - 1;
      ShortWantedDistinct(e, objects, vs[..n], size);
      if vs[n].Some? {
        var last := Wanted(vs[n].value, objects[n].slices);
        WantedDistinct(vs[n].value, objects[n].slices);
        forall a: nat
          ensures !(GoesTo(ShortWanted(objects, vs[..n]), a) && GoesTo(last, a))
        {
          LastIsNew(e, objects, vs, size, a);
        }
        DistinctConcat(ShortWanted(objects, vs[..n]), last);
      } else {
        AppendNothing(ShortWanted(objects, vs[..n]));
      }
    }
  }

  lemma {:induction false} LastIsNew(e: Env, objects: seq<ObjectSlices>, vs: Routes, size: nat, a: nat)
    requires vs != [] && |vs| <= |objects| && RoutesInside(objects, vs) && DisjointBuffers(objects, size)
             && vs[|vs| - 1].Some?
    ensures GoesTo(ShortWanted(objects, vs[..|vs| - 1]), a)
            ==> !GoesTo(Wanted(vs[|vs| - 1].value, objects[|vs| - 1].slices), a)
  {
    var n := |vs| - 1;
    if GoesTo(ShortWanted(objects, vs[..n]), a) {
      ShortWantedTo(e, objects, vs[..n], a);
      var i :| 0 <= i < n && Asks(objects[i], a);
      assert !Asks(objects[n], a);
      WantedTo(vs[n].value, objects[n].slices, a);
    }
  }

  lemma {:induction false} ShortHolds(objects: seq<ObjectSlices>, vs: Routes, mem: seq<bv8>)
    requires |vs| <= |objects| && Holds(mem, ShortWanted(objects, vs))
    ensures forall i :: 0 <= i < |vs| && vs[i].Some? ==> Holds(mem, Wanted(vs[i].value, objects[i].slices))
    decreases |vs|
  {
    if vs != [] {
      var n := |vs| - 1;
      hide Holds, Wanted;
      HoldsConcat(mem, ShortWanted(objects, vs[..n]), if vs[n].Some? then Wanted(vs[n].value, objects[n].slices)
                  else []);
      ShortHolds(objects, vs[..n], mem);
    }
  }

  // An address that the pieces cover is one that a directly read object asks for.
  lemma {:induction false} CoveredIsAsked(e: Env, objects: seq<ObjectSlices>, vs: Routes, ps: seq<Piece>, a: nat)
    requires e.levels > 0 && |vs| <= |objects| && RoutesInside(objects, vs) && AllFit(e.w, Last(e), ps)
    requires Delivered(e.w, Last(e), ps) == ShortWanted(objects, vs) && CoveredBy(ps, a)
    ensures exists i :: 0 <= i < |vs| && vs[i].Some? && Asks(objects[i], a)
  {
    DeliveredTo(e.w, Last(e), ps, a);
    ShortWantedTo(e, objects, vs, a);
  }

  lemma {:induction false} AskedIsInMemory(objects: seq<ObjectSlices>, size: nat, i: nat, a: nat)
    requires DisjointBuffers(objects, size) && i < |objects| && Asks(objects[i], a)
    ensures a < size
  {
    var k :| 0 <= k < |objects[i].slices| && InSlice(objects[i].slices[k], a);
  }

  lemma {:induction false} PiecesInMemory(e: Env, objects: seq<ObjectSlices>, vs: Routes, ps: seq<Piece>, size: nat)
    requires e.levels > 0 && |vs| <= |objects| && RoutesInside(objects, vs) && AllFit(e.w, Last(e), ps)
    requires Delivered(e.w, Last(e), ps) == ShortWanted(objects, vs) && DisjointBuffers(objects, size)
    ensures InMemory(ps, size)
  {
    forall j | 0 <= j < |ps|
      ensures ps[j].target + ps[j].l.length <= size
    {
      assert PieceFits(e.w, Last(e), ps[j]);
      var a := ps[j].target + ps[j].l.length - 1;
      assert Covers(ps[j], a);
      CoveredIsAsked(e, objects, vs, ps, a);
      var i :| 0 <= i < |vs| && vs[i].Some? && Asks(objects[i], a);
      AskedIsInMemory(objects, size, i, a);
    }
  }

  /** The pieces of a routed request lie in memory and do not overlap. */
  lemma {:induction false} RoutedIsWorkable(e: Env, objects: seq<ObjectSlices>, vs: Routes, ps: seq<Piece>, size: nat)
    requires e.levels > 0 && |vs| <= |objects| && RoutesInside(objects, vs) && AllReady(e, ps)
    requires Delivered(e.w, Last(e), ps) == ShortWanted(objects, vs) && DisjointBuffers(objects, size)
    ensures Workable(e, ps, size)
  {
    assert AllFit(e.w, Last(e), ps);
    hide StoredRight, DisjointBuffers, Delivered, RoutesInside;
    PiecesInMemory(e, objects, vs, ps, size);
    ShortWantedDistinct(e, objects, vs, size);
    DistinctIsApart(e.w, Last(e), ps);
  }

  // ------------------------------------------------------------------
  // Routing
  // ------------------------------------------------------------------

  lemma {:induction false} ServedIsReady(e: Env, ps: seq<Piece>)
    requires e.levels > 0 && OsdsRight(e) && AllServed(e.w, Last(e), ps)
    requires forall i :: 0 <= i < |ps| ==> OnFastPath(ps[i])
    ensures AllReady(e, ps)
  {
    forall i | 0 <= i < |ps|
      ensures Ready(e, ps[i])
    {
      assert Served(e.w, Last(e), ps[i]);
    }
  }

  lemma {:induction false} FoundIsVersion(e: Env, t: nat, os: ObjectSlices)
    requires FoundFits(e.w, t, 0, os.name, os.slices) && e.w.find(t, 0, os.name).Some?
    ensures Version(e, os.name, ObjectOf(e.w, 0, e.w.find(t, 0, os.name).value), t, t + 1)
    ensures Inside(ObjectOf(e.w, 0, e.w.find(t, 0, os.name).value), os.slices)
  {
    hide ObjectOf;
    assert VersionAt(e, os.name, ObjectOf(e.w, 0, e.w.find(t, 0, os.name).value), t);
  }

  // Why an object, looked up from t to t', is not read directly: a lookup that it depends on failed,
  // or a piece of it has no OSD, is compressed, or cannot be decrypted in part.
  ghost predicate Refused(e: Env, t: nat, t': nat, os: ObjectSlices)
    requires e.levels > 0
  {
    || Missed(e.w, t, t', e.levels, 0, os.name, os.slices)
    || exists p: Piece :: Served(e.w, Last(e), p) && !OnFastPath(p) && Asks(os, p.target)
  }

  ghost predicate NotDirect(e: Env, os: ObjectSlices, from: nat, to: nat)
    requires e.levels > 0
  {
    exists t: nat, t': nat :: from <= t < t' <= to && Refused(e, t, t', os)
  }

  lemma {:induction false} ServedFits(w: World, level: nat, ps: seq<Piece>)
    requires AllServed(w, level, ps)
    ensures AllFit(w, level, ps)
  {
    forall i | 0 <= i < |ps|
      ensures PieceFits(w, level, ps[i])
    {
      assert Served(w, level, ps[i]);
    }
  }

  // the pieces of a resolved object go to the addresses that the object asks for
  lemma {:induction false} PieceIsAsked(e: Env, os: ObjectSlices, v: seq<bv8>, ps: seq<Piece>, i: nat)
    requires e.levels > 0 && AllServed(e.w, Last(e), ps) && Inside(v, os.slices) && i < |ps|
    requires Delivered(e.w, Last(e), ps) == Wanted(v, os.slices)
    ensures Asks(os, ps[i].target)
  {
    ServedFits(e.w, Last(e), ps);
    assert PieceFits(e.w, Last(e), ps[i]);
    assert Covers(ps[i], ps[i].target);
    DeliveredTo(e.w, Last(e), ps, ps[i].target);
    WantedTo(v, os.slices, ps[i].target);
  }

  lemma {:induction false} OffFastPath(e: Env, t: nat, t': nat, os: ObjectSlices, v: seq<bv8>, ps: seq<Piece>, i: nat)
    requires e.levels > 0 && AllServed(e.w, Last(e), ps) && Inside(v, os.slices) && i < |ps|
    requires Delivered(e.w, Last(e), ps) == Wanted(v, os.slices) && !OnFastPath(ps[i])
    ensures Refused(e, t, t', os)
  {
    PieceIsAsked(e, os, v, ps, i);
    assert Served(e.w, Last(e), ps[i]);
  }

  // one object: its pieces, when all of them can be read directly
  method RouteOne(e: Env, t: nat, os: ObjectSlices) returns (r: Option<seq<Piece>>, t': nat, ghost v: Option<seq<bv8>>)
    requires e.levels > 0 && Consistent(e.w, e.levels) && OsdsRight(e) && FoundFits(e.w, t, 0, os.name, os.slices)
    ensures t < t' && (r.Some? <==> v.Some?)
    ensures r.None? ==> Refused(e, t, t', os)
    ensures r.Some? ==>
              && Version(e, os.name, v.value, t, t + 1) && Inside(v.value, os.slices)
              && AllReady(e, r.value) && Delivered(e.w, Last(e), r.value) == Wanted(v.value, os.slices)
  {
    hide Consistent, OsdsRight, FoundFits, AllReady, Delivered, Wanted, AllServed, ObjectOf, Inside, Version, Missed,
      OnFastPath;
    var locations;
    locations, t' := ResolveManyLevels(e.w, t, e.levels, 0, os.name, os.slices);
    if locations.None? {
      return None, t', None;
    }
    FoundIsVersion(e, t, os);
    if exists i :: 0 <= i < |locations.value| && !OnFastPath(locations.value[i]) {
      ghost var i :| 0 <= i < |locations.value| && !OnFastPath(locations.value[i]);
      OffFastPath(e, t, t', os, ObjectOf(e.w, 0, e.w.find(t, 0, os.name).value), locations.value, i);
      return None, t', None;
    }
    ServedIsReady(e, locations.value);
    return locations, t', Some(ObjectOf(e.w, 0, e.w.find(t, 0, os.name).value));
  }

  lemma {:induction false} VersionLasts(e: Env, name: seq<byte>, v: seq<bv8>, from: nat, to: nat, from': nat, to': nat)
    requires Version(e, name, v, from, to) && from' <= from && to <= to'
    ensures Version(e, name, v, from', to')
  {
  }

  lemma {:induction false} VersionsStep(e: Env, objects: seq<ObjectSlices>, vs: Routes, v: Option<seq<bv8>>,
                                        from: nat, to: nat, to': nat)
    requires |vs| < |objects| && Versions(e, objects, vs, from, to) && RoutesInside(objects, vs) && from <= to < to'
    requires v.Some? ==> Version(e, objects[|vs|].name, v.value, to, to + 1) && Inside(v.value, objects[|vs|].slices)
    ensures Versions(e, objects, vs + [v], from, to') && RoutesInside(objects, vs + [v])
  {
    forall i | 0 <= i < |vs + [v]| && (vs + [v])[i].Some?
      ensures Version(e, objects[i].name, (vs + [v])[i].value, from, to')
    {
      if i < |vs| {
        VersionLasts(e, objects[i].name, vs[i].value, from, to, from, to');
      } else {
        VersionLasts(e, objects[i].name, v.value, to, to + 1, from, to');
      }
    }
  }

  // every object that is not read directly has its reason
  ghost predicate HaveReasons(e: Env, objects: seq<ObjectSlices>, vs: Routes, from: nat, to: nat)
    requires e.levels > 0 && |vs| <= |objects|
  {
    forall i :: 0 <= i < |vs| && vs[i].None? ==> NotDirect(e, objects[i], from, to)
  }

  lemma {:induction false} NotDirectLasts(e: Env, os: ObjectSlices, from: nat, to: nat, to': nat)
    requires e.levels > 0 && NotDirect(e, os, from, to) && to <= to'
    ensures NotDirect(e, os, from, to')
  {
    hide Refused;
  }

  lemma {:induction false} ReasonsStep(e: Env, objects: seq<ObjectSlices>, vs: Routes, v: Option<seq<bv8>>,
                                       from: nat, to: nat, to': nat)
    requires e.levels > 0 && |vs| < |objects| && HaveReasons(e, objects, vs, from, to) && from <= to < to'
    requires v.None? ==> Refused(e, to, to', objects[|vs|])
    ensures HaveReasons(e, objects, vs + [v], from, to')
  {
    forall i | 0 <= i < |vs + [v]| && (vs + [v])[i].None?
      ensures NotDirect(e, objects[i], from, to')
    {
      if i < |vs| {
        NotDirectLasts(e, objects[i], from, to, to');
      }
    }
  }

  lemma {:induction false} ViaStep(objects: seq<ObjectSlices>, vs: Routes, via: seq<ObjectSlices>, at: seq<nat>,
                                   v: Option<seq<bv8>>)
    requires |vs| < |objects| && ViaOf(objects, vs, via, at)
    ensures v.Some? ==> ViaOf(objects, vs + [v], via, at)
    ensures v.None? ==> ViaOf(objects, vs + [v], via + [objects[|vs|]], at + [|vs|])
  {
    if v.None? {
      assert (at + [|vs|])[|at|] == |vs|;
      forall i | 0 <= i < |vs + [v]| && (vs + [v])[i].None?
        ensures i in at + [|vs|]
      {
        if i < |vs| {
          assert i in at;
        }
      }
    }
  }

  lemma {:induction false} ReadyConcat(e: Env, ps: seq<Piece>, qs: seq<Piece>)
    requires e.levels > 0 && AllReady(e, ps) && AllReady(e, qs)
    ensures AllReady(e, ps + qs)
  {
  }

  lemma {:induction false} NothingRouted(e: Env, objects: seq<ObjectSlices>, t: nat)
    requires e.levels > 0
    ensures AllReady(e, []) && Versions(e, objects, [], t, t) && HaveReasons(e, objects, [], t, t)
            && RoutesInside(objects, []) && ViaOf(objects, [], [], [])
    ensures Delivered(e.w, Last(e), []) == ShortWanted(objects, [])
  {
  }

  lemma {:induction false} FitsNow(e: Env, objects: seq<ObjectSlices>, i: nat, t: nat)
    requires RequestsFit(e, objects) && i < |objects|
    ensures FoundFits(e.w, t, 0, objects[i].name, objects[i].slices)
  {
  }

  /** Every object goes one way: its pieces join the direct read, or it is left to the proxy. */
  method Route(e: Env, t: nat, objects: seq<ObjectSlices>)
    returns (short: seq<Piece>, via: seq<ObjectSlices>, t': nat, ghost vs: Routes, ghost at: seq<nat>)
    requires e.levels > 0 && Consistent(e.w, e.levels) && OsdsRight(e) && RequestsFit(e, objects)
    ensures t <= t' && |vs| == |objects| && Versions(e, objects, vs, t, t') && RoutesInside(objects, vs)
            && ViaOf(objects, vs, via, at)
    ensures HaveReasons(e, objects, vs, t, t')
    ensures AllReady(e, short) && Delivered(e.w, Last(e), short) == ShortWanted(objects, vs)
  {
    hide *;
    short, via, t', vs, at := [], [], t, [], [];
    NothingRouted(e, objects, t);
    for i := 0 to |objects|
      invariant t <= t' && |vs| == i && Versions(e, objects, vs, t, t') && RoutesInside(objects, vs)
                && ViaOf(objects, vs, via, at)
      invariant HaveReasons(e, objects, vs, t, t')
      invariant AllReady(e, short) && Delivered(e.w, Last(e), short) == ShortWanted(objects, vs)
    {
      FitsNow(e, objects, i, t');
      var r, u, v := RouteOne(e, t', objects[i]);
      VersionsStep(e, objects, vs, v, t, t', u);
      ReasonsStep(e, objects, vs, v, t, t', u);
      ViaStep(objects, vs, via, at, v);
      ShortWantedStep(objects, vs, v);
      if r.None? {
        via, at := via + [objects[i]], at + [i];
        AppendNothing(ShortWanted(objects, vs));
      } else {
        ReadyConcat(e, short, r.value);
        DeliveredConcat(e.w, Last(e), short, r.value);
        short := short + r.value;
      }
      vs, t' := vs + [v], u;
    }
  }
}
