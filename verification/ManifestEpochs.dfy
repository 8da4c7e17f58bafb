/** Level 1 of the manifest cache over time: which lookups of a namespace give the same cache object.

    A cache object is made by the first `add` of a namespace and forgotten, not changed, by an
    invalidation; whoever looked it up before still holds it. */
module ManifestEpochs {
  // the namespace a cache object was made for, and when
  datatype Birth = Birth(owner: string, at: nat)

  // a level-1 lookup and the cache object it gave
  datatype Lookup1 = Lookup1(ns: string, cache: nat)

  /** Level 1, and its history: when cache objects were made, which lookup (by its moment) gave
      which of them, and when namespaces were invalidated.  `now` counts steps. */
  datatype Epochs = Epochs(
    now: nat,
    level1: map<string, nat>,
    births: seq<Birth>,
    lookups: map<nat, Lookup1>,
    invalidations: set<(string, nat)>)

  function Tick(p: Epochs): Epochs {
    p.(now := p.now + 1)
  }

  function LookIn(p: Epochs, ns: string): Epochs
    requires ns in p.level1
  {
    p.(now := p.now + 1, lookups := p.lookups[p.now := Lookup1(ns, p.level1[ns])])
  }

  function Create(p: Epochs, ns: string): Epochs {
    p.(now := p.now + 1,
       level1 := p.level1[ns := |p.births|],
       births := p.births + [Birth(ns, p.now)],
       lookups := p.lookups[p.now := Lookup1(ns, |p.births|)])
  }

  function Forget(p: Epochs, ns: string): Epochs {
    p.(now := p.now + 1, level1 := p.level1 - {ns}, invalidations := p.invalidations + {(ns, p.now)})
  }

  // ------------------------------------------------------------------
  // Which lookups meet in one cache object
  // ------------------------------------------------------------------

  // ns was not invalidated at any moment from a to b
  ghost predicate Unbroken(p: Epochs, ns: string, a: nat, b: nat) {
    forall i :: (ns, i) in p.invalidations ==> !(a <= i <= b)
  }

  // ns was invalidated after a and before b
  ghost predicate Cut(p: Epochs, ns: string, a: nat, b: nat) {
    exists i :: (ns, i) in p.invalidations && a < i < b
  }

  // the object that a lookup gave was made for its namespace, and lived all the time since
  ghost predicate Lived(p: Epochs, t: nat)
    requires t in p.lookups
  {
    var l := p.lookups[t];
    && t < p.now && l.cache < |p.births|
    && p.births[l.cache].owner == l.ns && p.births[l.cache].at <= t
    && Unbroken(p, l.ns, p.births[l.cache].at, t)
  }

  // it is still in level 1, or an invalidation removed it
  ghost predicate CurrentOrCut(p: Epochs, t: nat)
    requires t in p.lookups
  {
    var l := p.lookups[t];
    (l.ns in p.level1 && p.level1[l.ns] == l.cache) || Cut(p, l.ns, t, p.now)
  }

  // between a lookup and the making of a later object of its namespace there was an invalidation
  ghost predicate CutBefore(p: Epochs, t: nat, d: nat)
    requires t in p.lookups && d < |p.births|
  {
    var l := p.lookups[t];
    l.cache < d && p.births[d].owner == l.ns ==> Cut(p, l.ns, t, p.births[d].at)
  }

  // level 1 gives the newest object of the namespace, and no invalidation came since
  ghost predicate Current(p: Epochs, ns: string)
    requires ns in p.level1
  {
    var c := p.level1[ns];
    && c < |p.births| && p.births[c].owner == ns && p.births[c].at < p.now
    && Unbroken(p, ns, p.births[c].at, p.now)
    && forall d :: c < d < |p.births| ==> p.births[d].owner != ns
  }

  ghost predicate EpochInv(p: Epochs) {
    && (forall i :: i in p.invalidations ==> i.1 < p.now)
    && (forall t :: t in p.lookups ==> Lived(p, t) && CurrentOrCut(p, t))
    && (forall t, d :: t in p.lookups && 0 <= d < |p.births| ==> CutBefore(p, t, d))
    && (forall ns :: ns in p.level1 ==> Current(p, ns))
  }

  // Later states know more lookups, objects and invalidations, all of them new.
  ghost predicate Later(p: Epochs, q: Epochs) {
    && q.now == p.now + 1
    && |p.births| <= |q.births| && q.births[..|p.births|] == p.births
    && p.invalidations <= q.invalidations
    && (forall i :: i in q.invalidations ==> i in p.invalidations || i.1 == p.now)
    && (forall t :: t in p.lookups ==> t in q.lookups && q.lookups[t] == p.lookups[t])
  }

  lemma {:induction false} CutStays(p: Epochs, q: Epochs, ns: string, a: nat, b: nat, c: nat)
    requires Later(p, q) && Cut(p, ns, a, b) && b <= c
    ensures Cut(q, ns, a, c)
  {
    var i :| (ns, i) in p.invalidations && a < i < b;
    assert (ns, i) in q.invalidations;
  }

  lemma {:induction false} LivedStays(p: Epochs, q: Epochs, t: nat)
    requires Later(p, q) && t in p.lookups && Lived(p, t)
    ensures t in q.lookups && Lived(q, t)
  {
    assert q.births[p.lookups[t].cache] == p.births[p.lookups[t].cache];
  }

  lemma {:induction false} CutBeforeStays(p: Epochs, q: Epochs, t: nat, d: nat)
    requires Later(p, q) && t in p.lookups && d < |p.births| && CutBefore(p, t, d)
    ensures t in q.lookups && CutBefore(q, t, d)
  {
    var l := p.lookups[t];
    assert q.births[d] == p.births[d];
    if l.cache < d && p.births[d].owner == l.ns {
      CutStays(p, q, l.ns, t, p.births[d].at, p.births[d].at);
    }
  }

  lemma {:induction false} TickKeeps(p: Epochs)
    requires EpochInv(p)
    ensures EpochInv(Tick(p)) && Later(p, Tick(p))
  {
    var q := Tick(p);
    forall t | t in q.lookups
      ensures Lived(q, t) && CurrentOrCut(q, t)
    {
      LivedStays(p, q, t);
      OldIsCurrentOrCut(p, q, t);
    }
    forall t, d | t in q.lookups && 0 <= d < |q.births|
      ensures CutBefore(q, t, d)
    {
      CutBeforeStays(p, q, t, d);
    }
    forall ns | ns in q.level1
      ensures Current(q, ns)
    {
      assert Current(p, ns);
    }
  }

  // what an earlier lookup gave is still current, or was cut off, also by an invalidation just now
  lemma {:induction false} OldIsCurrentOrCut(p: Epochs, q: Epochs, t: nat)
    requires Later(p, q) && t in p.lookups && Lived(p, t) && CurrentOrCut(p, t)
    requires var ns := p.lookups[t].ns;
             ns in p.level1 ==> (ns in q.level1 && q.level1[ns] == p.level1[ns]) || (ns, p.now) in q.invalidations
    ensures t in q.lookups && CurrentOrCut(q, t)
  {
    var l := p.lookups[t];
    if Cut(p, l.ns, t, p.now) {
      CutStays(p, q, l.ns, t, p.now, q.now);
    }
  }

  lemma {:induction false} LookInKeeps(p: Epochs, ns: string)
    requires EpochInv(p) && ns in p.level1
    ensures EpochInv(LookIn(p, ns)) && Later(p, LookIn(p, ns))
  {
    var q := LookIn(p, ns);
    assert Current(p, ns);
    forall t | t in q.lookups
      ensures Lived(q, t) && CurrentOrCut(q, t)
    {
      if t in p.lookups {
        LivedStays(p, q, t);
        OldIsCurrentOrCut(p, q, t);
      }
    }
    forall t, d | t in q.lookups && 0 <= d < |q.births|
      ensures CutBefore(q, t, d)
    {
      if t in p.lookups {
        CutBeforeStays(p, q, t, d);
      }
    }
    forall n | n in q.level1
      ensures Current(q, n)
    {
      assert Current(p, n);
    }
  }

  lemma {:induction false} CutBeforeNew(p: Epochs, ns: string, t: nat, d: nat)
    requires EpochInv(p) && ns !in p.level1 && Later(p, Create(p, ns))
    requires t in Create(p, ns).lookups && d < |Create(p, ns).births|
    ensures CutBefore(Create(p, ns), t, d)
  {
    var q := Create(p, ns);
    if t in p.lookups {
      assert Lived(p, t) && CurrentOrCut(p, t);
      if d < |p.births| {
        CutBeforeStays(p, q, t, d);
      } else if p.lookups[t].ns == ns {
        CutStays(p, q, ns, t, p.now, p.now);
      }
    }
  }

  lemma {:induction false} CreateKeeps(p: Epochs, ns: string)
    requires EpochInv(p) && ns !in p.level1
    ensures EpochInv(Create(p, ns)) && Later(p, Create(p, ns))
  {
    var q := Create(p, ns);
    assert Later(p, q);
    forall t | t in q.lookups
      ensures Lived(q, t) && CurrentOrCut(q, t)
    {
      if t in p.lookups {
        LivedStays(p, q, t);
        OldIsCurrentOrCut(p, q, t);
      }
    }
    forall t, d | t in q.lookups && 0 <= d < |q.births|
      ensures CutBefore(q, t, d)
    {
      CutBeforeNew(p, ns, t, d);
    }
    forall n | n in q.level1
      ensures Current(q, n)
    {
      assert n in p.level1 ==> Current(p, n);
    }
  }

  lemma {:induction false} ForgetKeeps(p: Epochs, ns: string)
    requires EpochInv(p)
    ensures EpochInv(Forget(p, ns)) && Later(p, Forget(p, ns))
  {
    var q := Forget(p, ns);
    assert (ns, p.now) in q.invalidations;
    forall t | t in q.lookups
      ensures Lived(q, t) && CurrentOrCut(q, t)
    {
      LivedStays(p, q, t);
      OldIsCurrentOrCut(p, q, t);
    }
    forall t, d | t in q.lookups && 0 <= d < |q.births|
      ensures CutBefore(q, t, d)
    {
      CutBeforeStays(p, q, t, d);
    }
    forall n | n in q.level1
      ensures Current(q, n)
    {
      assert Current(p, n);
    }
  }

  // ns was not invalidated between the two moments, whichever came first
  ghost predicate SameEpoch(p: Epochs, ns: string, a: nat, b: nat) {
    !Cut(p, ns, a, b) && !Cut(p, ns, b, a)
  }

  /** Two lookups of a namespace give the same cache object if and only if the namespace was not
      invalidated between them. */
  lemma {:induction false} SameObjectIffSameEpoch(p: Epochs, t: nat, u: nat)
    requires EpochInv(p) && t in p.lookups && u in p.lookups && p.lookups[t].ns == p.lookups[u].ns
    ensures p.lookups[t].cache == p.lookups[u].cache <==> SameEpoch(p, p.lookups[t].ns, t, u)
  {
    assert Lived(p, t) && Lived(p, u);
    var ns, c, d := p.lookups[t].ns, p.lookups[t].cache, p.lookups[u].cache;
    if c < d {
      assert CutBefore(p, t, d);
      CutWiden(p, ns, t, p.births[d].at, u);
    } else if d < c {
      assert CutBefore(p, u, c);
      CutWiden(p, ns, u, p.births[c].at, t);
    }
  }

  lemma {:induction false} CutWiden(p: Epochs, ns: string, a: nat, b: nat, c: nat)
    requires Cut(p, ns, a, b) && b <= c
    ensures Cut(p, ns, a, c)
  {
  }

  // Lookups of different namespaces never give the same object.
  lemma {:induction false} ObjectsBelongToNamespaces(p: Epochs, t: nat, u: nat)
    requires EpochInv(p) && t in p.lookups && u in p.lookups && p.lookups[t].cache == p.lookups[u].cache
    ensures p.lookups[t].ns == p.lookups[u].ns
  {
    assert Lived(p, t) && Lived(p, u);
  }
}
