/** The two-level manifest cache, with `add` and `find` split at their lock sections.

    Level 1 maps a namespace to a cache object; level 2 is that object, an LRU
    cache keyed by alba id followed by object name.  `add` and `find` look up the
    object under the level-1 lock, drop the lock, and only then work on the
    object; `invalidate_namespace` may run in between and simply forgets the object. */
module ManifestCache {
  import opened Sequences
  import opened LruCache
  import opened ManifestEpochs

  datatype Manifest = Manifest(name: string, body: nat)

  // a manifest as one `add` stored it; `addedAt` is when that add did its level-1 lookup
  datatype Stored = Stored(ns: string, albaId: string, manifest: Manifest, addedAt: nat)

  function MakeKey(albaId: string, objectName: string): string {
    albaId + objectName
  }

  datatype Cache = Cache(capacity: nat, entries: Entries<string, Stored>)

  type OpId = nat
  datatype PendingAdd = PendingAdd(cache: nat, stored: Stored)
  datatype PendingFind = PendingFind(cache: nat, ns: string, albaId: string, name: string, startedAt: nat)
  datatype Found = Found(ns: string, startedAt: nat, value: Option<Stored>)

  // an insertion, and the cache object it went to
  datatype Insertion = Insertion(cache: nat, stored: Stored)

  // `inserted` (oldest first, over all cache objects) and `found` are history.
  datatype State = State(
    ep: Epochs,
    capacity: nat,
    caches: seq<Cache>,
    adds: map<OpId, PendingAdd>,
    finds: map<OpId, PendingFind>,
    inserted: seq<Insertion>,
    found: seq<Found>)

  predicate Init(s: State) {
    s == State(Epochs(0, map[], [], map[], {}), 10000, [], map[], map[], [], [])
  }

  datatype Event =
    | SetCapacity(capacity: nat)
    | AddLookup(op: OpId, ns: string, albaId: string, manifest: Manifest)
    | AddInsert(op: OpId)
    | FindLookup(op: OpId, ns: string, albaId: string, name: string)
    | FindGet(op: OpId)
    | Invalidate(ns: string)

  predicate Enabled(s: State, e: Event) {
    match e
    case SetCapacity(_) => true
    case AddLookup(op, _, _, _) => op !in s.adds
    case AddInsert(op) => op in s.adds && s.adds[op].cache < |s.caches|
    case FindLookup(op, _, _, _) => op !in s.finds
    case FindGet(op) => op in s.finds && s.finds[op].cache < |s.caches|
    case Invalidate(_) => true
  }

  function DoAddLookup(s: State, op: OpId, ns: string, albaId: string, mf: Manifest): State {
    var stored := Stored(ns, albaId, mf, s.ep.now);
    if ns in s.ep.level1 then
      s.(ep := LookIn(s.ep, ns), adds := s.adds[op := PendingAdd(s.ep.level1[ns], stored)])
    else if s.capacity == 0 then
      s.(ep := Tick(s.ep))                // the LRU constructor throws; nothing was stored
    else
      s.(ep := Create(s.ep, ns),
         caches := s.caches + [Cache(s.capacity, [])],
         adds := s.adds[op := PendingAdd(|s.ep.births|, stored)])
  }

  function Inserted(c: Cache, st: Stored): Cache {
    c.(entries := BoundedPut(c.capacity, c.entries, KeyOf(st), st))
  }

  function DoAddInsert(s: State, op: OpId): State
    requires Enabled(s, AddInsert(op))
  {
    var p := s.adds[op];
    s.(ep := Tick(s.ep),
       caches := s.caches[p.cache := Inserted(s.caches[p.cache], p.stored)],
       adds := s.adds - {op},
       inserted := s.inserted + [Insertion(p.cache, p.stored)])
  }

  function DoFindGet(s: State, op: OpId): State
    requires Enabled(s, FindGet(op))
  {
    var f := s.finds[op];
    var c := s.caches[f.cache];
    var key := MakeKey(f.albaId, f.name);
    s.(ep := Tick(s.ep),
       caches := s.caches[f.cache := c.(entries := Touch(c.entries, key))],
       finds := s.finds - {op},
       found := s.found + [Found(f.ns, f.startedAt, Lookup(c.entries, key))])
  }

  function Step(s: State, e: Event): State
    requires Enabled(s, e)
  {
    match e
    case SetCapacity(n) => s.(ep := Tick(s.ep), capacity := n)
    case AddLookup(op, ns, albaId, mf) => DoAddLookup(s, op, ns, albaId, mf)
    case AddInsert(op) => DoAddInsert(s, op)
    case FindLookup(op, ns, albaId, name) =>
      if ns in s.ep.level1 then
        s.(ep := LookIn(s.ep, ns),
           finds := s.finds[op := PendingFind(s.ep.level1[ns], ns, albaId, name, s.ep.now)])
      else
        s.(ep := Tick(s.ep), found := s.found + [Found(ns, s.ep.now, None)])
    case FindGet(op) => DoFindGet(s, op)
    case Invalidate(ns) => s.(ep := Forget(s.ep, ns))
  }

  predicate Runs(s: State, es: seq<Event>)
    decreases |es|
  {
    es == [] || (Enabled(s, es[0]) && Runs(Step(s, es[0]), es[1..]))
  }

  function After(s: State, es: seq<Event>): State
    requires Runs(s, es)
    decreases |es|
  {
    if es == [] then s else After(Step(s, es[0]), es[1..])
  }

  // ------------------------------------------------------------------
  // Keys and the newest insertion
  // ------------------------------------------------------------------

  /** Two different alba ids can share a key exactly when one is a prefix of the
      other; ids of one common length never are. */
  lemma {:induction false} KeysCollideIffPrefix(a: string, b: string)
    requires a != b
    ensures (exists n, m :: MakeKey(a, n) == MakeKey(b, m)) <==> a <= b || b <= a
    ensures |a| == |b| ==> !(a <= b) && !(b <= a)
  {
    if n, m :| MakeKey(a, n) == MakeKey(b, m) {
      var key := MakeKey(a, n);
      assert a == key[..|a|] && b == key[..|b|];
    }
    if a <= b {
      assert MakeKey(a, b[|a|..]) == MakeKey(b, "");
    }
    if b <= a {
      assert MakeKey(a, "") == MakeKey(b, a[|b|..]);
    }
  }

  function KeyOf(st: Stored): string {
    MakeKey(st.albaId, st.manifest.name)
  }

  // the newest insertion into an object under a key
  function LastIn(ins: seq<Insertion>, cache: nat, key: string): Option<Stored> {
    if ins == [] then None
    else
      var i := ins[|ins| - 1];
      if i.cache == cache && KeyOf(i.stored) == key then Some(i.stored)
      else LastIn(ins[..|ins| - 1], cache, key)
  }

  predicate PrefixFree(ids: set<string>) {
    forall a, b :: a in ids && b in ids && a <= b ==> a == b
  }

  lemma {:induction false} KeyDetermines(ids: set<string>, a: string, n: string, b: string, m: string)
    requires PrefixFree(ids) && a in ids && b in ids
    ensures MakeKey(a, n) == MakeKey(b, m) <==> a == b && n == m
  {
    if MakeKey(a, n) == MakeKey(b, m) {
      if a != b {
        KeysCollideIffPrefix(a, b);
      }
      assert MakeKey(a, n)[|a|..] == n && MakeKey(b, m)[|b|..] == m;
    }
  }

  // the entries of an object, each the newest insertion under its key
  ghost predicate Newest(l: Entries<string, Stored>, ins: seq<Insertion>, cache: nat) {
    DistinctKeys(l) && forall i :: 0 <= i < |l| ==> LastIn(ins, cache, l[i].0) == Some(l[i].1)
  }

  lemma {:induction false} LookupIsEntry(l: Entries<string, Stored>, k: string)
    requires Lookup(l, k).Some?
    ensures exists i :: 0 <= i < |l| && l[i] == (k, Lookup(l, k).value)
  {
    LookupSpec(l, k);
  }

  lemma {:induction false} RemoveNewest(l: Entries<string, Stored>, ins: seq<Insertion>, cache: nat, k: string)
    requires Newest(l, ins, cache)
    ensures Newest(Remove(l, k), ins, cache) && !HasKey(Remove(l, k), k)
  {
    RemoveMembers(l, k);
    RemoveDistinct(l, k);
    forall i | 0 <= i < |Remove(l, k)|
      ensures LastIn(ins, cache, Remove(l, k)[i].0) == Some(Remove(l, k)[i].1)
    {
      assert Remove(l, k)[i] in l;
    }
  }

  lemma {:induction false} TouchNewest(l: Entries<string, Stored>, ins: seq<Insertion>, cache: nat, k: string)
    requires Newest(l, ins, cache)
    ensures Newest(Touch(l, k), ins, cache)
    ensures Lookup(l, k).Some? ==> LastIn(ins, cache, k) == Lookup(l, k)
  {
    RemoveNewest(l, ins, cache, k);
    if Lookup(l, k).Some? {
      LookupIsEntry(l, k);
    }
  }

  // an insertion changes the newest entry of its own object and key only
  lemma {:induction false} LastOfOthers(ins: seq<Insertion>, x: Insertion, cache: nat, k: string)
    ensures LastIn(ins + [x], cache, k)
         == if x.cache == cache && KeyOf(x.stored) == k then Some(x.stored) else LastIn(ins, cache, k)
  {
    assert (ins + [x])[..|ins|] == ins;
  }

  lemma {:induction false} PutNewest(l: Entries<string, Stored>, ins: seq<Insertion>, cache: nat, st: Stored)
    requires Newest(l, ins, cache)
    ensures Newest(Put(l, KeyOf(st), st), ins + [Insertion(cache, st)], cache)
  {
    var key := KeyOf(st);
    RemoveNewest(l, ins, cache, key);
    PutDistinct(l, key, st);
    var m := Remove(l, key);
    var r := Put(l, key, st);
    forall i | 0 <= i < |r|
      ensures LastIn(ins + [Insertion(cache, st)], cache, r[i].0) == Some(r[i].1)
    {
      LastOfOthers(ins, Insertion(cache, st), cache, r[i].0);
      if i < |m| {
        assert r[i] == m[i] && m[i].0 != key;
      }
    }
  }

  lemma {:induction false} KeptNewest(l: Entries<string, Stored>, ins: seq<Insertion>, cache: nat, n: nat)
    requires n <= |l| && Newest(l, ins, cache)
    ensures Newest(l[n..], ins, cache)
  {
    assert forall i :: 0 <= i < |l[n..]| ==> l[n..][i] == l[i + n];
  }

  lemma {:induction false} InsertedNewest(c: Cache, ins: seq<Insertion>, cache: nat, st: Stored)
    requires Newest(c.entries, ins, cache)
    ensures Newest(Inserted(c, st).entries, ins + [Insertion(cache, st)], cache)
  {
    var kept := if |c.entries| >= c.capacity && c.entries != [] then c.entries[1..] else c.entries;
    KeptNewest(c.entries, ins, cache, |c.entries| - |kept|);
    hide LastIn, Put;
    PutNewest(kept, ins, cache, st);
  }

  // an insertion elsewhere
  lemma {:induction false} OthersNewest(l: Entries<string, Stored>, ins: seq<Insertion>, x: Insertion, cache: nat)
    requires Newest(l, ins, cache) && x.cache != cache
    ensures Newest(l, ins + [x], cache)
  {
    forall i | 0 <= i < |l|
      ensures LastIn(ins + [x], cache, l[i].0) == Some(l[i].1)
    {
      LastOfOthers(ins, x, cache, l[i].0);
    }
  }

  // ------------------------------------------------------------------
  // What every step keeps
  // ------------------------------------------------------------------

  // the operation did its level-1 lookup then, and holds the object that gave
  predicate Looked(p: Epochs, at: nat, ns: string, cache: nat) {
    at in p.lookups && p.lookups[at] == Lookup1(ns, cache)
  }

  ghost predicate OpsInv(s: State) {
    && (forall op :: op in s.adds ==>
          Looked(s.ep, s.adds[op].stored.addedAt, s.adds[op].stored.ns, s.adds[op].cache))
    && (forall op :: op in s.finds ==>
          Looked(s.ep, s.finds[op].startedAt, s.finds[op].ns, s.finds[op].cache))
    && (forall i :: 0 <= i < |s.inserted| ==>
          Looked(s.ep, s.inserted[i].stored.addedAt, s.inserted[i].stored.ns, s.inserted[i].cache))
  }

  ghost predicate CachesInv(s: State) {
    && |s.caches| == |s.ep.births|
    && forall c :: 0 <= c < |s.caches| ==> Newest(s.caches[c].entries, s.inserted, c)
  }

  // every invalidation before the find's start came before the add's lookup
  ghost predicate FoundFresh(p: Epochs, f: Found) {
    && f.startedAt < p.now
    && (f.value.Some? ==>
          forall i :: (f.ns, i) in p.invalidations && i < f.startedAt ==> i < f.value.value.addedAt)
  }

  ghost predicate Inv(s: State) {
    && EpochInv(s.ep) && OpsInv(s) && CachesInv(s)
    && forall i :: 0 <= i < |s.found| ==> FoundFresh(s.ep, s.found[i])
  }

  lemma {:induction false} EpochsAfterStep(s: State, e: Event)
    requires EpochInv(s.ep) && Enabled(s, e)
    ensures EpochInv(Step(s, e).ep) && Later(s.ep, Step(s, e).ep)
  {
    hide EpochInv, Later;
    match e
    case AddLookup(_, ns, _, _) =>
      if ns in s.ep.level1 {
        LookInKeeps(s.ep, ns);
      } else if s.capacity == 0 {
        TickKeeps(s.ep);
      } else {
        CreateKeeps(s.ep, ns);
      }
    case FindLookup(_, ns, _, _) =>
      if ns in s.ep.level1 {
        LookInKeeps(s.ep, ns);
      } else {
        TickKeeps(s.ep);
      }
    case Invalidate(ns) => ForgetKeeps(s.ep, ns);
    case _ => TickKeeps(s.ep);
  }

  // no lookup is forgotten
  ghost predicate Remembers(p: Epochs, q: Epochs) {
    forall at, ns, c :: Looked(p, at, ns, c) ==> Looked(q, at, ns, c)
  }

  // the operations of s, under a later level 1
  lemma {:induction false} OpsStay(s: State, q: Epochs)
    requires OpsInv(s) && Remembers(s.ep, q)
    ensures OpsInv(s.(ep := q))
  {
    hide Looked;
  }

  lemma {:induction false} OneMoreAdd(s: State, op: OpId, a: PendingAdd)
    requires OpsInv(s) && Looked(s.ep, a.stored.addedAt, a.stored.ns, a.cache)
    ensures OpsInv(s.(adds := s.adds[op := a]))
  {
    hide Looked;
  }

  lemma {:induction false} OneMoreFind(s: State, op: OpId, f: PendingFind)
    requires OpsInv(s) && Looked(s.ep, f.startedAt, f.ns, f.cache)
    ensures OpsInv(s.(finds := s.finds[op := f]))
  {
    hide Looked;
  }

  lemma {:induction false} OneAddDone(s: State, op: OpId)
    requires OpsInv(s) && op in s.adds
    ensures OpsInv(s.(adds := s.adds - {op}, inserted := s.inserted + [Insertion(s.adds[op].cache, s.adds[op].stored)]))
  {
    hide Looked;
  }

  // the rest of a state has nothing to do with the operations
  lemma {:induction false} SameOps(s: State, t: State)
    requires OpsInv(s) && t.ep == s.ep && t.adds == s.adds && t.inserted == s.inserted
    requires forall op :: op in t.finds ==> op in s.finds && t.finds[op] == s.finds[op]
    ensures OpsInv(t)
  {
    hide Looked;
  }

  lemma {:induction false} OpsAfterStep(s: State, e: Event)
    requires OpsInv(s) && Enabled(s, e) && Later(s.ep, Step(s, e).ep) && |s.caches| == |s.ep.births|
    ensures OpsInv(Step(s, e))
  {
    var t := Step(s, e);
    forall at, ns, c | Looked(s.ep, at, ns, c) ensures Looked(t.ep, at, ns, c) { LookedStays(s.ep, t.ep, at, ns, c); }
    OpsStay(s, t.ep);
    var m := s.(ep := t.ep);
    if (e.AddLookup? || e.FindLookup?) && e.ns in t.ep.level1 {
      LookedNow(s.ep, e.ns);
    }
    hide OpsInv, Later, Looked, Tick, LookIn, Create, Forget, Remembers;
    if e.AddLookup? && e.op in t.adds {
      OneMoreAdd(m, e.op, t.adds[e.op]);
      SameOps(m.(adds := t.adds), t);
    } else if e.FindLookup? && e.op in t.finds {
      OneMoreFind(m, e.op, t.finds[e.op]);
      SameOps(m.(finds := t.finds), t);
    } else if e.AddInsert? {
      OneAddDone(m, e.op);
      SameOps(m.(adds := t.adds, inserted := t.inserted), t);
    } else {
      SameOps(m, t);
    }
  }

  lemma {:induction false} LookedStays(p: Epochs, q: Epochs, at: nat, ns: string, cache: nat)
    requires Later(p, q) && Looked(p, at, ns, cache)
    ensures Looked(q, at, ns, cache)
  {
  }

  lemma {:induction false} LookedNow(p: Epochs, ns: string)
    ensures ns in p.level1 ==> Looked(LookIn(p, ns), p.now, ns, p.level1[ns])
    ensures Looked(Create(p, ns), p.now, ns, |p.births|)
  {
  }

  lemma {:induction false} CachesAfterStep(s: State, e: Event)
    requires CachesInv(s) && Enabled(s, e)
    ensures CachesInv(Step(s, e))
  {
    var t := Step(s, e);
    forall c | 0 <= c < |t.caches|
      ensures Newest(t.caches[c].entries, t.inserted, c)
    {
      assert c < |s.caches| ==> Newest(s.caches[c].entries, s.inserted, c);
      if e.AddInsert? {
        var p := s.adds[e.op];
        hide Newest, Inserted;
        if c == p.cache {
          InsertedNewest(s.caches[c], s.inserted, c, p.stored);
        } else {
          OthersNewest(s.caches[c].entries, s.inserted, Insertion(p.cache, p.stored), c);
        }
      } else if e.FindGet? {
        var f := s.finds[e.op];
        TouchNewest(s.caches[c].entries, s.inserted, c, MakeKey(f.albaId, f.name));
      }
    }
  }

  lemma {:induction false} LastInIsInsertion(ins: seq<Insertion>, cache: nat, key: string)
    requires LastIn(ins, cache, key).Some?
    ensures exists i :: 0 <= i < |ins| && ins[i] == Insertion(cache, LastIn(ins, cache, key).value)
  {
    var i := ins[|ins| - 1];
    if !(i.cache == cache && KeyOf(i.stored) == key) {
      LastInIsInsertion(ins[..|ins| - 1], cache, key);
    }
  }

  // what a find gets was added in its own namespace and in its own epoch
  lemma {:induction false} GotInEpoch(s: State, op: OpId)
    requires Inv(s) && Enabled(s, FindGet(op))
    requires var f := s.finds[op]; Lookup(s.caches[f.cache].entries, MakeKey(f.albaId, f.name)).Some?
    ensures var f := s.finds[op]; var st := Lookup(s.caches[f.cache].entries, MakeKey(f.albaId, f.name)).value;
            && Looked(s.ep, f.startedAt, f.ns, f.cache) && Looked(s.ep, st.addedAt, st.ns, f.cache)
            && st.ns == f.ns && SameEpoch(s.ep, f.ns, st.addedAt, f.startedAt)
  {
    var f := s.finds[op];
    var c, key := s.caches[f.cache], MakeKey(f.albaId, f.name);
    assert Newest(c.entries, s.inserted, f.cache);
    TouchNewest(c.entries, s.inserted, f.cache, key);
    LastInIsInsertion(s.inserted, f.cache, key);
    var st := Lookup(c.entries, key).value;
    assert Looked(s.ep, st.addedAt, st.ns, f.cache) && Looked(s.ep, f.startedAt, f.ns, f.cache);
    ObjectsBelongToNamespaces(s.ep, st.addedAt, f.startedAt);
    SameObjectIffSameEpoch(s.ep, st.addedAt, f.startedAt);
  }

  lemma {:induction false} FoundAfterStep(s: State, e: Event)
    requires Inv(s) && Enabled(s, e) && Later(s.ep, Step(s, e).ep)
    ensures var t := Step(s, e);
            forall i :: 0 <= i < |t.found| ==> FoundFresh(t.ep, t.found[i])
  {
    var t := Step(s, e);
    assert t.ep.now == s.ep.now + 1;
    forall i | 0 <= i < |s.found| ensures FoundFresh(t.ep, s.found[i]) { FoundStays(s.ep, t.ep, s.found[i]); }
    if e.FindGet? {
      GotIsFresh(s, e.op);
    }
    hide Inv, Later;
    forall i | 0 <= i < |t.found|
      ensures FoundFresh(t.ep, t.found[i])
    {
      if i >= |s.found| {
        assert e.FindGet? || t.found[i] == Found(e.ns, s.ep.now, None);
      } else {
        assert t.found[i] == s.found[i];
      }
    }
  }

  lemma {:induction false} FoundStays(p: Epochs, q: Epochs, f: Found)
    requires Later(p, q) && FoundFresh(p, f)
    ensures FoundFresh(q, f)
  {
  }

  lemma {:induction false} GotIsFresh(s: State, op: OpId)
    requires Inv(s) && Enabled(s, FindGet(op))
    ensures var f := s.finds[op];
            FoundFresh(Tick(s.ep),
                       Found(f.ns, f.startedAt, Lookup(s.caches[f.cache].entries, MakeKey(f.albaId, f.name))))
  {
    var f := s.finds[op];
    assert Looked(s.ep, f.startedAt, f.ns, f.cache) && Lived(s.ep, f.startedAt);
    if Lookup(s.caches[f.cache].entries, MakeKey(f.albaId, f.name)).Some? {
      GotInEpoch(s, op);
      var st := Lookup(s.caches[f.cache].entries, MakeKey(f.albaId, f.name)).value;
      assert Lived(s.ep, st.addedAt);
    }
  }

  lemma {:induction false} StepKeepsInv(s: State, e: Event)
    requires Inv(s) && Enabled(s, e)
    ensures Inv(Step(s, e))
  {
    EpochsAfterStep(s, e);
    OpsAfterStep(s, e);
    CachesAfterStep(s, e);
    FoundAfterStep(s, e);
  }

  lemma {:induction false} RunKeepsInv(s: State, es: seq<Event>)
    requires Inv(s) && Runs(s, es)
    ensures Inv(After(s, es))
    decreases |es|
  {
    if es != [] {
      StepKeepsInv(s, es[0]);
      RunKeepsInv(Step(s, es[0]), es[1..]);
    }
  }

  // ------------------------------------------------------------------
  // What a find returns
  // ------------------------------------------------------------------

  /** In every interleaving, a find that started after an invalidation of its
      namespace never returns a manifest whose add had done its level-1 lookup
      before that invalidation. */
  lemma {:induction false} FindAfterInvalidateIsFresh(s: State, es: seq<Event>, i: nat, t: nat)
    requires Init(s) && Runs(s, es)
    requires i < |After(s, es).found| && After(s, es).found[i].value.Some?
    requires (After(s, es).found[i].ns, t) in After(s, es).ep.invalidations
    requires t < After(s, es).found[i].startedAt
    ensures t < After(s, es).found[i].value.value.addedAt
  {
    RunKeepsInv(s, es);
    assert FoundFresh(After(s, es).ep, After(s, es).found[i]);
  }

  // an add of this namespace, alba id and name, in the same epoch as moment `at`
  ghost predicate Candidate(p: Epochs, st: Stored, ns: string, albaId: string, name: string, at: nat) {
    st.ns == ns && st.albaId == albaId && st.manifest.name == name && SameEpoch(p, ns, st.addedAt, at)
  }

  // the last of them in the history of all insertions
  ghost function LatestAdded(p: Epochs, ins: seq<Insertion>, ns: string, albaId: string, name: string,
                             at: nat): Option<Stored> {
    if ins == [] then None
    else if Candidate(p, ins[|ins| - 1].stored, ns, albaId, name, at) then Some(ins[|ins| - 1].stored)
    else LatestAdded(p, ins[..|ins| - 1], ns, albaId, name, at)
  }

  // an insertion went to the find's object under the find's key exactly if it is a candidate
  lemma {:induction false} MeetsIffCandidate(p: Epochs, x: Insertion, f: PendingFind, ids: set<string>)
    requires EpochInv(p) && PrefixFree(ids) && f.albaId in ids
    requires Looked(p, x.stored.addedAt, x.stored.ns, x.cache) && Looked(p, f.startedAt, f.ns, f.cache)
    requires x.stored.ns == f.ns ==> x.stored.albaId in ids
    ensures x.cache == f.cache && KeyOf(x.stored) == MakeKey(f.albaId, f.name)
       <==> Candidate(p, x.stored, f.ns, f.albaId, f.name, f.startedAt)
  {
    if x.cache == f.cache {
      ObjectsBelongToNamespaces(p, x.stored.addedAt, f.startedAt);
    }
    if x.stored.ns == f.ns {
      SameObjectIffSameEpoch(p, x.stored.addedAt, f.startedAt);
      KeyDetermines(ids, x.stored.albaId, x.stored.manifest.name, f.albaId, f.name);
    }
  }

  lemma {:induction false} LastInIsLatest(p: Epochs, ins: seq<Insertion>, f: PendingFind, ids: set<string>)
    requires EpochInv(p) && PrefixFree(ids) && f.albaId in ids && Looked(p, f.startedAt, f.ns, f.cache)
    requires forall i :: 0 <= i < |ins| ==> Looked(p, ins[i].stored.addedAt, ins[i].stored.ns, ins[i].cache)
    requires forall i :: 0 <= i < |ins| && ins[i].stored.ns == f.ns ==> ins[i].stored.albaId in ids
    ensures LastIn(ins, f.cache, MakeKey(f.albaId, f.name)) == LatestAdded(p, ins, f.ns, f.albaId, f.name, f.startedAt)
  {
    if ins != [] {
      MeetsIffCandidate(p, ins[|ins| - 1], f, ids);
      hide Candidate;
      LastInIsLatest(p, ins[..|ins| - 1], f, ids);
    }
  }

  /** In every interleaving a find returns nothing, or the newest manifest that any add inserted for
      exactly its namespace, alba id and object name, among the adds with no invalidation of the
      namespace between their level-1 lookup and the find's - as long as no alba id in use in that
      namespace is a prefix of another (all of one length, in particular). */
  lemma {:induction false} FindReturnsLatest(s: State, es: seq<Event>, op: OpId, ids: set<string>)
    requires Init(s) && Runs(s, es) && op in After(s, es).finds && PrefixFree(ids)
    requires AlbaIdsIn(After(s, es), op, ids)
    ensures Enabled(After(s, es), FindGet(op))
    ensures var t := After(s, es); var f := t.finds[op]; var r := Step(t, FindGet(op)).found;
            && |r| == |t.found| + 1 && r[|t.found|].ns == f.ns && r[|t.found|].startedAt == f.startedAt
            && (r[|t.found|].value.None? ||
                r[|t.found|].value == LatestAdded(t.ep, t.inserted, f.ns, f.albaId, f.name, f.startedAt))
  {
    RunKeepsInv(s, es);
    GetsLatest(After(s, es), op, ids);
  }

  // the alba ids in use in the find's namespace, its own included, are among the given ones
  predicate AlbaIdsIn(t: State, op: OpId, ids: set<string>)
    requires op in t.finds
  {
    && t.finds[op].albaId in ids
    && forall i :: 0 <= i < |t.inserted| && t.inserted[i].stored.ns == t.finds[op].ns ==>
         t.inserted[i].stored.albaId in ids
  }

  lemma {:induction false} GetsLatest(t: State, op: OpId, ids: set<string>)
    requires Inv(t) && op in t.finds && PrefixFree(ids) && AlbaIdsIn(t, op, ids)
    ensures Enabled(t, FindGet(op))
    ensures var f := t.finds[op]; var got := Lookup(t.caches[f.cache].entries, MakeKey(f.albaId, f.name));
            got.None? || got == LatestAdded(t.ep, t.inserted, f.ns, f.albaId, f.name, f.startedAt)
  {
    var f := t.finds[op];
    assert Looked(t.ep, f.startedAt, f.ns, f.cache) && Lived(t.ep, f.startedAt);
    assert Newest(t.caches[f.cache].entries, t.inserted, f.cache);
    TouchNewest(t.caches[f.cache].entries, t.inserted, f.cache, MakeKey(f.albaId, f.name));
    LastInIsLatest(t.ep, t.inserted, f, ids);
  }

  /** And it finds the one it races with: a pending add and a pending find of the same namespace, alba
      id and name, with no invalidation between their lookups, meet when the insertion comes first. */
  lemma {:induction false} InsertionIsFound(s: State, es: seq<Event>, add: OpId, op: OpId)
    requires Init(s) && Runs(s, es) && add in After(s, es).adds && op in After(s, es).finds
    requires var t := After(s, es); var f := t.finds[op];
             Candidate(t.ep, t.adds[add].stored, f.ns, f.albaId, f.name, f.startedAt)
    ensures Runs(After(s, es), [AddInsert(add), FindGet(op)])
    ensures var t := After(s, es); var u := After(t, [AddInsert(add), FindGet(op)]);
            && |u.found| == |t.found| + 1
            && u.found[|t.found|].value == Some(t.adds[add].stored)
  {
    RunKeepsInv(s, es);
    var t := After(s, es);
    var f, a := t.finds[op], t.adds[add];
    assert Looked(t.ep, f.startedAt, f.ns, f.cache) && Lived(t.ep, f.startedAt);
    assert Looked(t.ep, a.stored.addedAt, a.stored.ns, a.cache);
    SameObjectIffSameEpoch(t.ep, a.stored.addedAt, f.startedAt);
    assert f.cache < |t.caches|;
    hide Inv, Looked, Lived, EpochInv, SameEpoch, After, Runs;
    InsertThenGet(t, add, op);
    RunsTwo(t, AddInsert(add), FindGet(op));
  }

  lemma {:induction false} InsertThenGet(t: State, add: OpId, op: OpId)
    requires Enabled(t, AddInsert(add)) && op in t.finds && t.finds[op].cache == t.adds[add].cache
    requires MakeKey(t.finds[op].albaId, t.finds[op].name) == KeyOf(t.adds[add].stored)
    ensures var u := Step(t, AddInsert(add));
            && Enabled(u, FindGet(op))
            && Step(u, FindGet(op)).found
              == t.found + [Found(t.finds[op].ns, t.finds[op].startedAt, Some(t.adds[add].stored))]
  {
    hide Inserted, Lookup, Touch, KeyOf, MakeKey;
    PutIsFound(t.caches[t.adds[add].cache], t.adds[add].stored);
  }

  lemma {:induction false} PutIsFound(c: Cache, st: Stored)
    ensures Lookup(Inserted(c, st).entries, KeyOf(st)) == Some(st)
  {
    var kept := if |c.entries| >= c.capacity && c.entries != [] then c.entries[1..] else c.entries;
    RemoveMembers(kept, KeyOf(st));
    LookupLast(Remove(kept, KeyOf(st)), KeyOf(st), st);
  }

  lemma {:induction false} LookupLast(l: Entries<string, Stored>, k: string, st: Stored)
    requires !HasKey(l, k)
    ensures Lookup(l + [(k, st)], k) == Some(st)
  {
    if l != [] {
      HasKeyTail(l, k);
      LookupLast(l[1..], k, st);
      assert (l + [(k, st)])[1..] == l[1..] + [(k, st)];
    }
  }

  lemma {:induction false} RunsOne(s: State, e: Event)
    requires Enabled(s, e)
    ensures Runs(s, [e]) && After(s, [e]) == Step(s, e)
  {
    hide Enabled, Step;
    assert [e][1..] == [];
  }

  lemma {:induction false} RunsTwo(s: State, e: Event, f: Event)
    requires Enabled(s, e) && Enabled(Step(s, e), f)
    ensures Runs(s, [e, f]) && After(s, [e, f]) == Step(Step(s, e), f)
  {
    hide Enabled, Step;
    RunsOne(Step(s, e), f);
    assert [e, f][1..] == [f];
  }
}
