/** How long the manifest cache keeps a manifest: each cache object is an LRU cache with the
    capacity that was set when it was made, whatever happens to the namespace. */
module ManifestRetention {
  import opened Sequences
  import opened LruCache
  import opened LruHistory
  import opened ManifestEpochs
  import opened ManifestCache

  const DEFAULT_CAPACITY: nat := 10000

  // the capacity last set, from the events alone
  function CapacitySet(es: seq<Event>): nat {
    if es == [] then DEFAULT_CAPACITY
    else if es[|es| - 1].SetCapacity? then es[|es| - 1].capacity
    else CapacitySet(es[..|es| - 1])
  }

  // the events so far were `es`; each object has the capacity set before it was made
  ghost predicate CapacityInv(es: seq<Event>, s: State) {
    && s.ep.now == |es| && s.capacity == CapacitySet(es) && |s.caches| == |s.ep.births|
    && forall c :: 0 <= c < |s.caches| ==> MadeWith(es, s, c)
  }

  ghost predicate MadeWith(es: seq<Event>, s: State, c: nat)
    requires c < |s.caches| == |s.ep.births|
  {
    var at := s.ep.births[c].at;
    at < |es| && s.caches[c].capacity == CapacitySet(es[..at]) > 0
  }

  lemma {:induction false} EpochsMoveOn(s: State, e: Event)
    requires Enabled(s, e) && |s.caches| == |s.ep.births|
    ensures var t := Step(s, e);
            && t.ep.now == s.ep.now + 1 && |t.caches| == |t.ep.births|
            && t.capacity == (if e.SetCapacity? then e.capacity else s.capacity)
            && |s.caches| <= |t.caches| <= |s.caches| + 1
            && (forall c :: 0 <= c < |s.caches| ==>
                  t.ep.births[c] == s.ep.births[c] && t.caches[c].capacity == s.caches[c].capacity)
            && (|t.caches| > |s.caches| ==>
                  t.ep.births[|s.caches|].at == s.ep.now && t.caches[|s.caches|] == Cache(s.capacity, [])
                  && s.capacity > 0)
  {
    hide Touch, Lookup, BoundedPut, KeyOf, MakeKey;
  }

  lemma {:induction false} StepKeepsCapacity(es: seq<Event>, s: State, e: Event)
    requires CapacityInv(es, s) && Enabled(s, e)
    ensures CapacityInv(es + [e], Step(s, e))
  {
    var t, fs := Step(s, e), es + [e];
    EpochsMoveOn(s, e);
    hide Step;
    assert fs[..|es|] == es;
    forall c | 0 <= c < |t.caches|
      ensures MadeWith(fs, t, c)
    {
      if c < |s.caches| {
        assert MadeWith(es, s, c);
        assert fs[..s.ep.births[c].at] == es[..s.ep.births[c].at];
      }
    }
  }

  lemma {:induction false} RunKeepsCapacity(es: seq<Event>, s: State, fs: seq<Event>)
    requires CapacityInv(es, s) && Runs(s, fs)
    ensures CapacityInv(es + fs, After(s, fs))
    decreases |fs|
  {
    hide CapacityInv, Enabled, Step;
    if fs == [] {
      assert es + fs == es;
    } else {
      StepKeepsCapacity(es, s, fs[0]);
      RunKeepsCapacity(es + [fs[0]], Step(s, fs[0]), fs[1..]);
      assert es + [fs[0]] + fs[1..] == es + fs;
    }
  }

  lemma {:induction false} ObjectsHaveCapacity(s: State, es: seq<Event>)
    requires Init(s) && Runs(s, es)
    ensures CapacityInv(es, After(s, es))
  {
    RunKeepsCapacity([], s, es);
    assert [] + es == es;
  }

  // ------------------------------------------------------------------
  // When a namespace has an object
  // ------------------------------------------------------------------

  // an add made one that no invalidation has removed since; with capacity 0 making it throws
  predicate HasObject(es: seq<Event>, ns: string) {
    if es == [] then false
    else
      var e, front := es[|es| - 1], es[..|es| - 1];
      if e == Invalidate(ns) then false
      else HasObject(front, ns) || (e.AddLookup? && e.ns == ns && CapacitySet(front) > 0)
  }

  ghost predicate EventInv(es: seq<Event>, s: State) {
    && s.ep.now == |es| && s.capacity == CapacitySet(es)
    && (forall ns :: ns in s.ep.level1 <==> HasObject(es, ns))
    && (forall ns, i: nat :: (ns, i) in s.ep.invalidations <==> i < |es| && es[i] == Invalidate(ns))
  }

  lemma {:induction false} StepKeepsEvents(es: seq<Event>, s: State, e: Event)
    requires EventInv(es, s) && Enabled(s, e)
    ensures EventInv(es + [e], Step(s, e))
  {
    var fs := es + [e];
    assert fs[..|es|] == es && fs[|es|] == e;
    hide Touch, Lookup, BoundedPut, KeyOf, MakeKey;
    forall ns, i: nat
      ensures (ns, i) in Step(s, e).ep.invalidations <==> i < |fs| && fs[i] == Invalidate(ns)
    {
      assert i < |es| ==> fs[i] == es[i];
    }
  }

  lemma {:induction false} RunKeepsEvents(es: seq<Event>, s: State, fs: seq<Event>)
    requires EventInv(es, s) && Runs(s, fs)
    ensures EventInv(es + fs, After(s, fs))
    decreases |fs|
  {
    hide EventInv, Enabled, Step;
    if fs == [] {
      assert es + fs == es;
    } else {
      StepKeepsEvents(es, s, fs[0]);
      RunKeepsEvents(es + [fs[0]], Step(s, fs[0]), fs[1..]);
      assert es + [fs[0]] + fs[1..] == es + fs;
    }
  }

  /** In every run, an add gets an object to insert its manifest into exactly if its namespace has one or
      one can be made, and a find one to look into exactly if its namespace has one: some add made it,
      and the namespace was not invalidated since. Otherwise the add is dropped and the find finds nothing. */
  lemma {:induction false} LookupsGiveObjects(s: State, es: seq<Event>, op: OpId, ns: string, albaId: string,
                                              mf: Manifest)
    requires Init(s) && Runs(s, es)
    ensures var t := After(s, es); var e := AddLookup(op, ns, albaId, mf);
            Enabled(t, e) ==>
              && (op in Step(t, e).adds <==> HasObject(es, ns) || CapacitySet(es) > 0)
              && (op in Step(t, e).adds ==> Step(t, e).adds[op].stored == Stored(ns, albaId, mf, |es|))
    ensures var t := After(s, es); var e := FindLookup(op, ns, albaId, mf.name);
            Enabled(t, e) ==>
              && (op in Step(t, e).finds <==> HasObject(es, ns))
              && (op in Step(t, e).finds ==>
                    var f := Step(t, e).finds[op];
                    f.ns == ns && f.albaId == albaId && f.name == mf.name && f.startedAt == |es|)
              && (op !in Step(t, e).finds ==> Step(t, e).found == t.found + [Found(ns, |es|, None)])
    ensures forall i: nat :: (ns, i) in After(s, es).ep.invalidations <==> i < |es| && es[i] == Invalidate(ns)
  {
    assert EventInv([], s);
    hide EventInv, Runs, After, Enabled, Step;
    RunKeepsEvents([], s, es);
    assert [] + es == es;
    var t := After(s, es);
    if Enabled(t, AddLookup(op, ns, albaId, mf)) {
      AddGetsObject(es, t, op, ns, albaId, mf);
    }
    if Enabled(t, FindLookup(op, ns, albaId, mf.name)) {
      FindGetsObject(es, t, op, ns, albaId, mf.name);
    }
    InvalidationsOf(es, t, ns);
  }

  lemma {:induction false} AddGetsObject(es: seq<Event>, t: State, op: OpId, ns: string, albaId: string, mf: Manifest)
    requires EventInv(es, t) && Enabled(t, AddLookup(op, ns, albaId, mf))
    ensures var u := Step(t, AddLookup(op, ns, albaId, mf));
            && (op in u.adds <==> HasObject(es, ns) || CapacitySet(es) > 0)
            && (op in u.adds ==> u.adds[op].stored == Stored(ns, albaId, mf, |es|))
  {
    hide HasObject, CapacitySet;
  }

  lemma {:induction false} FindGetsObject(es: seq<Event>, t: State, op: OpId, ns: string, albaId: string, name: string)
    requires EventInv(es, t) && Enabled(t, FindLookup(op, ns, albaId, name))
    ensures var u := Step(t, FindLookup(op, ns, albaId, name));
            && (op in u.finds <==> HasObject(es, ns))
            && (op in u.finds ==>
                  var f := u.finds[op];
                  f.ns == ns && f.albaId == albaId && f.name == name && f.startedAt == |es|)
            && (op !in u.finds ==> u.found == t.found + [Found(ns, |es|, None)])
  {
    hide HasObject, CapacitySet;
  }

  lemma {:induction false} InvalidationsOf(es: seq<Event>, t: State, ns: string)
    requires EventInv(es, t)
    ensures forall i: nat :: (ns, i) in t.ep.invalidations <==> i < |es| && es[i] == Invalidate(ns)
  {
    hide HasObject, CapacitySet;
  }

  // ------------------------------------------------------------------
  // One object's share of a run
  // ------------------------------------------------------------------

  // what an event does to object c
  function OpOn(s: State, e: Event, c: nat): seq<Op<string, Stored>>
    requires Enabled(s, e)
  {
    match e
    case AddInsert(op) =>
      if s.adds[op].cache == c then [Op.Insert(KeyOf(s.adds[op].stored), s.adds[op].stored)] else []
    case FindGet(op) => if s.finds[op].cache == c then [Op.Find(MakeKey(s.finds[op].albaId, s.finds[op].name))] else []
    case _ => []
  }

  function OpsOn(s: State, es: seq<Event>, c: nat): seq<Op<string, Stored>>
    requires Runs(s, es)
    decreases |es|
  {
    if es == [] then [] else OpOn(s, es[0], c) + OpsOn(Step(s, es[0]), es[1..], c)
  }

  // a manifest goes into object c, or a find gets one out of it
  predicate UsesObject(s: State, e: Event, c: nat)
    requires Enabled(s, e)
  {
    match e
    case AddInsert(op) => s.adds[op].cache == c
    case FindGet(op) => s.finds[op].cache == c && Step(s, e).found[|s.found|].value.Some?
    case _ => false
  }

  function UsesOf(s: State, es: seq<Event>, c: nat): nat
    requires Runs(s, es)
    decreases |es|
  {
    if es == [] then 0 else (if UsesObject(s, es[0], c) then 1 else 0) + UsesOf(Step(s, es[0]), es[1..], c)
  }

  // the entries of object c; none before it is made
  function EntriesOf(s: State, c: nat): Entries<string, Stored> {
    if c < |s.caches| then s.caches[c].entries else []
  }

  lemma {:induction false} CapacityStays(s: State, es: seq<Event>, c: nat)
    requires Runs(s, es) && c < |s.caches| == |s.ep.births|
    ensures c < |After(s, es).caches| && After(s, es).caches[c].capacity == s.caches[c].capacity
    decreases |es|
  {
    hide Enabled, Step;
    if es != [] {
      EpochsMoveOn(s, es[0]);
      CapacityStays(Step(s, es[0]), es[1..], c);
    }
  }

  lemma {:induction false} OneEvent(s: State, e: Event, c: nat)
    requires Enabled(s, e) && |s.caches| == |s.ep.births|
    ensures var l := EntriesOf(s, c); var m := EntriesOf(Step(s, e), c); var ops := OpOn(s, e, c);
            && (ops == [] ==> m == l && !UsesObject(s, e, c))
            && (ops != [] ==>
                  && |ops| == 1 && c < |s.caches| && !ops[0].Erase?
                  && m == BoundedOp(s.caches[c].capacity, l, ops[0])
                  && (UsesObject(s, e, c) <==> Uses(l, ops[0], ops[0].k)))
  {
    if e.FindGet? && s.finds[e.op].cache == c {
      LookupSpec(s.caches[c].entries, MakeKey(s.finds[e.op].albaId, s.finds[e.op].name));
    }
    hide Touch, Lookup, BoundedPut, KeyOf, MakeKey, HasKey;
  }

  lemma {:induction false} BoundedOne(capacity: nat, l: Entries<string, Stored>, op: Op<string, Stored>,
                                      ops: seq<Op<string, Stored>>)
    ensures Bounded(capacity, l, [op] + ops) == Bounded(capacity, BoundedOp(capacity, l, op), ops)
    ensures UseCount(capacity, l, [op] + ops)
         == (if Uses(l, op, op.k) then 1 else 0) + UseCount(capacity, BoundedOp(capacity, l, op), ops)
  {
    hide BoundedOp, Uses;
    assert ([op] + ops)[1..] == ops;
  }

  // an object is the LRU cache that its share of the run makes
  lemma {:induction false} ObjectRuns(s: State, es: seq<Event>, c: nat, capacity: nat)
    requires Runs(s, es) && |s.caches| == |s.ep.births|
    requires c < |After(s, es).caches| && After(s, es).caches[c].capacity == capacity
    ensures EntriesOf(After(s, es), c) == Bounded(capacity, EntriesOf(s, c), OpsOn(s, es, c))
    ensures UsesOf(s, es, c) == UseCount(capacity, EntriesOf(s, c), OpsOn(s, es, c))
    ensures forall i :: 0 <= i < |OpsOn(s, es, c)| ==> !OpsOn(s, es, c)[i].Erase?
    decreases |es|
  {
    if c < |s.caches| {
      CapacityStays(s, es, c);
    }
    hide Enabled, Step, EntriesOf, OpOn, BoundedOp, UsesObject, Uses;
    if es != [] {
      var t := Step(s, es[0]);
      EpochsMoveOn(s, es[0]);
      OneEvent(s, es[0], c);
      ObjectRuns(t, es[1..], c, capacity);
      var ops, rest := OpOn(s, es[0], c), OpsOn(t, es[1..], c);
      if ops == [] {
        assert ops + rest == rest;
      } else {
        assert ops == [ops[0]];
        BoundedOne(capacity, EntriesOf(s, c), ops[0], rest);
      }
    }
  }

  /** In every run each cache object holds what an LRU cache of its capacity holds after the insertions
      and gets that went to it; its capacity is the one last set before it was made, 10000 if none was. */
  lemma {:induction false} ObjectsAreLru(s: State, es: seq<Event>, c: nat)
    requires Init(s) && Runs(s, es) && c < |After(s, es).caches|
    ensures var t := After(s, es);
            && c < |t.ep.births| && t.ep.births[c].at < |es|
            && t.caches[c].capacity == CapacitySet(es[..t.ep.births[c].at]) > 0
            && t.caches[c].entries == Cached(t.caches[c].capacity, OpsOn(s, es, c))
  {
    ObjectsHaveCapacity(s, es);
    var t := After(s, es);
    assert MadeWith(es, t, c);
    ObjectRuns(s, es, c, t.caches[c].capacity);
  }

  // ------------------------------------------------------------------
  // Retention
  // ------------------------------------------------------------------

  lemma {:induction false} InsertionIsKept(s: State, es: seq<Event>, add: OpId, fs: seq<Event>)
    requires Init(s) && Runs(s, es) && add in After(s, es).adds
    requires Enabled(After(s, es), AddInsert(add))
    requires Runs(Step(After(s, es), AddInsert(add)), fs)
    ensures var t := After(s, es); var c := t.adds[add].cache;
            c < |t.ep.births| && t.ep.births[c].at < |es|
    ensures var t := After(s, es); var c := t.adds[add].cache; var u := Step(t, AddInsert(add));
            UsesOf(u, fs, c) < CapacitySet(es[..t.ep.births[c].at]) ==>
              HasKey(EntriesOf(After(u, fs), c), KeyOf(t.adds[add].stored))
  {
    var t := After(s, es);
    var c, st := t.adds[add].cache, t.adds[add].stored;
    var u := Step(t, AddInsert(add));
    ObjectsAreLru(s, es, c);
    ObjectsHaveCapacity(s, es);
    var C, l := t.caches[c].capacity, t.caches[c].entries;
    CachedIsValid(C, OpsOn(s, es, c));
    assert u.caches[c].capacity == C && u.caches[c].entries == BoundedPut(C, l, KeyOf(st), st);
    assert |u.caches| == |u.ep.births|;
    hide Step, Enabled, BoundedPut, CapacityInv, DistinctKeys, HasKey, KeyOf, OpsOn;
    CapacityStays(u, fs, c);
    ObjectRuns(u, fs, c, C);
    if UsesOf(u, fs, c) < C {
      KeptForCapacityUses(C, l, KeyOf(st), st, OpsOn(u, fs, c));
    }
  }

  // the find holds the object that the add inserted into
  lemma {:induction false} SameObject(s: State, es: seq<Event>, add: OpId, fs: seq<Event>, op: OpId)
    requires Init(s) && Runs(s, es) && add in After(s, es).adds && Enabled(After(s, es), AddInsert(add))
    requires Runs(Step(After(s, es), AddInsert(add)), fs)
    requires var w := After(Step(After(s, es), AddInsert(add)), fs);
             && op in w.finds
             && Candidate(w.ep, After(s, es).adds[add].stored, w.finds[op].ns, w.finds[op].albaId, w.finds[op].name,
                          w.finds[op].startedAt)
    ensures var t := After(s, es); var w := After(Step(t, AddInsert(add)), fs);
            && ManifestCache.Inv(w) && w.finds[op].cache == t.adds[add].cache
            && MakeKey(w.finds[op].albaId, w.finds[op].name) == KeyOf(t.adds[add].stored)
  {
    var t := After(s, es);
    var u := Step(t, AddInsert(add));
    RunKeepsInv(s, es);
    StepKeepsInv(t, AddInsert(add));
    var x := Insertion(t.adds[add].cache, t.adds[add].stored);
    assert x in u.inserted by {
      assert u.inserted[|t.inserted|] == x;
    }
    hide Step, Enabled, ManifestCache.Inv;
    RunKeepsInv(u, fs);
    InsertionsStay(u, fs, x);
    InSameObject(After(u, fs), x, op);
  }

  lemma {:induction false} InsertionsStay(s: State, es: seq<Event>, x: Insertion)
    requires Runs(s, es) && x in s.inserted
    ensures x in After(s, es).inserted
    decreases |es|
  {
    if es != [] {
      assert x in Step(s, es[0]).inserted;
      hide Step, Enabled;
      InsertionsStay(Step(s, es[0]), es[1..], x);
    }
  }

  lemma {:induction false} InSameObject(w: State, x: Insertion, op: OpId)
    requires ManifestCache.Inv(w) && x in w.inserted && op in w.finds
    requires var f := w.finds[op]; Candidate(w.ep, x.stored, f.ns, f.albaId, f.name, f.startedAt)
    ensures w.finds[op].cache == x.cache && MakeKey(w.finds[op].albaId, w.finds[op].name) == KeyOf(x.stored)
  {
    var f := w.finds[op];
    var i :| 0 <= i < |w.inserted| && w.inserted[i] == x;
    assert Looked(w.ep, x.stored.addedAt, x.stored.ns, x.cache) && Looked(w.ep, f.startedAt, f.ns, f.cache);
    SameObjectIffSameEpoch(w.ep, x.stored.addedAt, f.startedAt);
  }

  /** A manifest is found as long as fewer manifests than the capacity were inserted into its cache object
      or got from it since: the find returns the newest manifest inserted for its namespace, alba id and
      object name, whatever runs in between. The capacity is the one last set before the object was made. */
  lemma {:induction false} RecentlyAddedIsFound(s: State, es: seq<Event>, add: OpId, fs: seq<Event>, op: OpId,
                                                ids: set<string>)
    requires Init(s) && Runs(s, es) && add in After(s, es).adds && Enabled(After(s, es), AddInsert(add))
    requires Runs(Step(After(s, es), AddInsert(add)), fs) && PrefixFree(ids)
    requires var w := After(Step(After(s, es), AddInsert(add)), fs);
             && op in w.finds && AlbaIdsIn(w, op, ids)
             && Candidate(w.ep, After(s, es).adds[add].stored, w.finds[op].ns, w.finds[op].albaId, w.finds[op].name,
                          w.finds[op].startedAt)
    ensures var t := After(s, es); var c := t.adds[add].cache;
            c < |t.ep.births| && t.ep.births[c].at < |es|
    ensures var t := After(s, es); var c := t.adds[add].cache; var u := Step(t, AddInsert(add));
            var w := After(u, fs); var f := w.finds[op];
            UsesOf(u, fs, c) < CapacitySet(es[..t.ep.births[c].at]) ==>
              && Enabled(w, FindGet(op))
              && var got := Step(w, FindGet(op)).found[|w.found|].value;
                 got.Some? && got == LatestAdded(w.ep, w.inserted, f.ns, f.albaId, f.name, f.startedAt)
  {
    var t := After(s, es);
    var u := Step(t, AddInsert(add));
    var w := After(u, fs);
    InsertionIsKept(s, es, add, fs);
    SameObject(s, es, add, fs, op);
    GetsLatest(w, op, ids);
    var f := w.finds[op];
    LookupSpec(w.caches[f.cache].entries, MakeKey(f.albaId, f.name));
  }
}
