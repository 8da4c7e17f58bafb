/** `UnsafeLRUCache`: a bounded map whose entries are ordered by last use. */
module LruCache {
  import opened Sequences

  // least recently used entry first
  type Entries<K, V> = seq<(K, V)>

  predicate HasKey<K(==), V>(l: Entries<K, V>, k: K) {
    exists i :: 0 <= i < |l| && l[i].0 == k
  }

  predicate DistinctKeys<K(==), V>(l: Entries<K, V>) {
    forall i, j :: 0 <= i < j < |l| ==> l[i].0 != l[j].0
  }

  function Remove<K(==), V>(l: Entries<K, V>, k: K): Entries<K, V> {
    if l == [] then []
    else if l[0].0 == k then Remove(l[1..], k)
    else [l[0]] + Remove(l[1..], k)
  }

  function Lookup<K(==), V>(l: Entries<K, V>, k: K): Option<V> {
    if l == [] then None
    else if l[0].0 == k then Some(l[0].1)
    else Lookup(l[1..], k)
  }

  // The order of last use: what find, insert and erase do to a list that has no bound.
  function Touch<K(==), V>(l: Entries<K, V>, k: K): Entries<K, V> {
    match Lookup(l, k)
    case None => l
    case Some(v) => Remove(l, k) + [(k, v)]
  }

  function Put<K(==), V>(l: Entries<K, V>, k: K, v: V): Entries<K, V> {
    Remove(l, k) + [(k, v)]
  }

  // insert on the bounded cache: the oldest entry is evicted before anything else
  // happens, also when k turns out to be present already
  function BoundedPut<K(==), V>(capacity: nat, l: Entries<K, V>, k: K, v: V): Entries<K, V> {
    Put(if |l| >= capacity && l != [] then l[1..] else l, k, v)
  }

  // ------------------------------------------------------------------
  // Facts about Remove and Lookup
  // ------------------------------------------------------------------

  lemma {:induction false} RemoveMembers<K, V>(l: Entries<K, V>, k: K)
    ensures forall x :: x in Remove(l, k) <==> x in l && x.0 != k
    ensures !HasKey(Remove(l, k), k)
  {
    if l != [] {
      RemoveMembers(l[1..], k);
      assert forall x :: x in l <==> x == l[0] || x in l[1..];
    }
    if HasKey(Remove(l, k), k) {
      var i :| 0 <= i < |Remove(l, k)| && Remove(l, k)[i].0 == k;
      assert Remove(l, k)[i] in Remove(l, k);
    }
  }

  lemma {:induction false} HasKeyTail<K, V>(l: Entries<K, V>, k: K)
    requires l != []
    ensures HasKey(l, k) <==> l[0].0 == k || HasKey(l[1..], k)
  {
    if HasKey(l[1..], k) {
      var i :| 0 <= i < |l[1..]| && l[1..][i].0 == k;
      assert l[i + 1].0 == k;
    }
    if i :| 0 <= i < |l| && l[i].0 == k {
      assert i > 0 ==> l[1..][i - 1].0 == k;
    }
  }

  lemma {:induction false} RemoveAbsent<K, V>(l: Entries<K, V>, k: K)
    requires !HasKey(l, k)
    ensures Remove(l, k) == l
  {
    if l != [] {
      HasKeyTail(l, k);
      RemoveAbsent(l[1..], k);
    }
  }

  lemma {:induction false} RemoveAddsNoKey<K, V>(l: Entries<K, V>, k: K, q: K)
    requires !HasKey(l, q)
    ensures !HasKey(Remove(l, k), q)
  {
    if l != [] {
      HasKeyTail(l, q);
      RemoveAddsNoKey(l[1..], k, q);
    }
  }

  lemma {:induction false} RemoveDistinct<K, V>(l: Entries<K, V>, k: K)
    requires DistinctKeys(l)
    ensures DistinctKeys(Remove(l, k))
    ensures |Remove(l, k)| == if HasKey(l, k) then |l| - 1 else |l|
  {
    if l != [] {
      var r := l[1..];
      assert forall i :: 0 <= i < |r| ==> r[i] == l[i + 1];
      RemoveDistinct(r, k);
      HasKeyTail(l, k);
      RemoveAddsNoKey(r, k, l[0].0);
      assert forall j :: 0 <= j < |Remove(r, k)| ==> Remove(r, k)[j].0 != l[0].0;
    }
  }

  lemma {:induction false} RemoveConcat<K, V>(a: Entries<K, V>, b: Entries<K, V>, k: K)
    ensures Remove(a + b, k) == Remove(a, k) + Remove(b, k)
  {
    if a == [] {
      assert a + b == b;
    } else {
      assert (a + b)[1..] == a[1..] + b;
      RemoveConcat(a[1..], b, k);
    }
  }

  lemma {:induction false} PutDistinct<K, V>(l: Entries<K, V>, k: K, v: V)
    requires DistinctKeys(l)
    ensures DistinctKeys(Put(l, k, v))
    ensures |Put(l, k, v)| == if HasKey(l, k) then |l| else |l| + 1
  {
    RemoveDistinct(l, k);
    RemoveMembers(l, k);
  }

  lemma {:induction false} LookupSpec<K, V>(l: Entries<K, V>, k: K)
    ensures Lookup(l, k).Some? <==> HasKey(l, k)
    ensures Lookup(l, k).Some? ==> (k, Lookup(l, k).value) in l
    ensures DistinctKeys(l) ==> forall i :: 0 <= i < |l| && l[i].0 == k ==> Lookup(l, k) == Some(l[i].1)
  {
    if l != [] {
      var r := l[1..];
      assert forall i :: 0 <= i < |r| ==> r[i] == l[i + 1];
      LookupSpec(r, k);
      if l[0].0 != k {
        assert HasKey(l, k) <==> HasKey(r, k) by {
          if i :| 0 <= i < |l| && l[i].0 == k {
            assert r[i - 1].0 == k;
          }
        }
      }
    }
  }

  // without entry i
  function DropAt<K, V>(l: Entries<K, V>, i: nat): Entries<K, V>
    requires i < |l|
  {
    l[..i] + l[i + 1..]
  }

  // k's entry is taken out, if there is one, and the rest stays as it was
  ghost predicate TakenOut<K, V>(l: Entries<K, V>, k: K, m: Entries<K, V>) {
    if HasKey(l, k) then exists i :: 0 <= i < |l| && l[i].0 == k && m == DropAt(l, i) else m == l
  }

  // k's entry is taken out, if there is one, and (k, v) is the newest
  ghost predicate MadeNewest<K, V>(l: Entries<K, V>, k: K, v: V, m: Entries<K, V>) {
    m != [] && m[|m| - 1] == (k, v) && TakenOut(l, k, m[..|m| - 1])
  }

  lemma {:induction false} RemoveAt<K, V>(l: Entries<K, V>, i: nat)
    requires DistinctKeys(l) && i < |l|
    ensures Remove(l, l[i].0) == DropAt(l, i)
  {
    var k, a, b := l[i].0, l[..i], l[i + 1..];
    assert l == a + ([l[i]] + b);
    RemoveConcat(a, [l[i]] + b, k);
    RemoveConcat([l[i]], b, k);
    RemoveAbsent(a, k);
    RemoveAbsent(b, k);
  }

  lemma {:induction false} RemoveTakesOut<K, V>(l: Entries<K, V>, k: K, v: V)
    requires DistinctKeys(l)
    ensures TakenOut(l, k, Remove(l, k)) && MadeNewest(l, k, v, Put(l, k, v))
  {
    if HasKey(l, k) {
      var i :| 0 <= i < |l| && l[i].0 == k;
      RemoveAt(l, i);
    } else {
      RemoveAbsent(l, k);
    }
    assert Put(l, k, v)[..|Remove(l, k)|] == Remove(l, k);
  }

  // ------------------------------------------------------------------
  // The cache object: a map (left view) and the order of use (right view)
  // ------------------------------------------------------------------

  function Without<K(==)>(ks: seq<K>, k: K): seq<K> {
    if ks == [] then []
    else if ks[0] == k then Without(ks[1..], k)
    else [ks[0]] + Without(ks[1..], k)
  }

  // the entries in order of use
  function Pairs<K, V>(m: map<K, V>, ks: seq<K>): Entries<K, V>
    requires forall i :: 0 <= i < |ks| ==> ks[i] in m
  {
    seq(|ks|, i requires 0 <= i < |ks| => (ks[i], m[ks[i]]))
  }

  lemma {:induction false} WithoutMembers<K>(ks: seq<K>, k: K)
    ensures forall x :: x in Without(ks, k) <==> x in ks && x != k
    ensures |Without(ks, k)| <= |ks|
  {
    if ks != [] {
      WithoutMembers(ks[1..], k);
      assert forall x :: x in ks <==> x == ks[0] || x in ks[1..];
    }
  }

  lemma {:induction false} WithoutNoDup<K>(ks: seq<K>, k: K)
    requires NoDup(ks)
    ensures NoDup(Without(ks, k))
    ensures |Without(ks, k)| == if k in ks then |ks| - 1 else |ks|
  {
    if ks != [] {
      assert forall i :: 0 <= i < |ks[1..]| ==> ks[1..][i] == ks[i + 1];
      WithoutNoDup(ks[1..], k);
      WithoutMembers(ks[1..], k);
      assert ks[0] !in ks[1..];
      assert forall x :: x in ks <==> x == ks[0] || x in ks[1..];
    }
  }

  lemma {:induction false} PairsWithout<K, V>(m: map<K, V>, ks: seq<K>, k: K)
    requires forall i :: 0 <= i < |ks| ==> ks[i] in m
    ensures forall i :: 0 <= i < |Without(ks, k)| ==> Without(ks, k)[i] in m
    ensures Pairs(m, Without(ks, k)) == Remove(Pairs(m, ks), k)
  {
    WithoutMembers(ks, k);
    assert forall i :: 0 <= i < |Without(ks, k)| ==> Without(ks, k)[i] in Without(ks, k);
    if ks != [] {
      PairsWithout(m, ks[1..], k);
      assert Pairs(m, ks)[1..] == Pairs(m, ks[1..]);
      if ks[0] != k {
        assert Pairs(m, Without(ks, k)) == [(ks[0], m[ks[0]])] + Pairs(m, Without(ks[1..], k));
      }
    }
  }

  lemma {:induction false} PairsLookup<K, V>(m: map<K, V>, ks: seq<K>, k: K)
    requires forall i :: 0 <= i < |ks| ==> ks[i] in m
    ensures Lookup(Pairs(m, ks), k) == if k in ks then Some(m[k]) else None
  {
    if ks != [] {
      PairsLookup(m, ks[1..], k);
      assert Pairs(m, ks)[1..] == Pairs(m, ks[1..]);
    }
  }

  class UnsafeLruCache<K(==), V> {
    const capacity: nat
    var left: map<K, V>
    var right: seq<K>

    ghost predicate Valid()
      reads this
    {
      && capacity > 0 && |right| <= capacity && NoDup(right)
      && left.Keys == (set k | k in right)
      && forall i :: 0 <= i < |right| ==> right[i] in left
    }

    ghost function Contents(): Entries<K, V>
      requires Valid()
      reads this
    {
      Pairs(left, right)
    }

    constructor (capacity: nat)
      requires capacity > 0
      ensures Valid() && this.capacity == capacity && Contents() == []
    {
      this.capacity := capacity;
      left := map[];
      right := [];
    }

    method Find(k: K) returns (r: Option<V>)
      requires Valid()
      modifies this
      ensures Valid()
      ensures r == Lookup(old(Contents()), k)
      ensures Contents() == Touch(old(Contents()), k)
      ensures r.None? ==> !HasKey(old(Contents()), k) && Contents() == old(Contents())
      ensures r.Some? ==> (k, r.value) in old(Contents()) && MadeNewest(old(Contents()), k, r.value, Contents())
    {
      PairsLookup(left, right, k);
      PairsDistinct(left, right);
      FindMakesNewest(Contents(), k);
      hide MadeNewest, HasKey, DistinctKeys, Lookup, Remove, Pairs, NoDup;
      if k in left {
        Relocate(k);
        return Some(left[k]);
      } else {
        return None;
      }
    }

    method Relocate(k: K)
      requires Valid() && k in left
      modifies this`right
      ensures Valid()
      ensures Contents() == Put(old(Contents()), k, left[k])
    {
      PairsWithout(left, right, k);
      WithoutMembers(right, k);
      WithoutNoDup(right, k);
      right := Without(right, k) + [k];
    }

    method Insert(k: K, v: V)
      requires Valid()
      modifies this
      ensures Valid()
      ensures Contents() == BoundedPut(capacity, old(Contents()), k, v)
      ensures MadeNewest(if |old(Contents())| == capacity then old(Contents())[1..]
                         else old(Contents()), k, v, Contents())
    {
      PairsDistinct(left, right);
      BoundedPutMakesNewest(capacity, Contents(), k, v);
      hide MadeNewest, DistinctKeys;
      if |right| >= capacity {
        EvictOldest();
      }
      if k in left {
        var _ := Erase(k);
      } else {
        PairsHasKey(left, right, k);
        RemoveAbsent(Contents(), k);
      }
      PushBack(k, v);
    }

    method PushBack(k: K, v: V)
      requires Valid() && k !in left && |right| < capacity
      modifies this
      ensures Valid()
      ensures Contents() == old(Contents()) + [(k, v)]
    {
      left := left[k := v];
      right := right + [k];
    }

    method EvictOldest()
      requires Valid() && right != []
      modifies this
      ensures Valid()
      ensures Contents() == old(Contents())[1..]
      ensures |right| == old(|right|) - 1
    {
      left := left - {right[0]};
      right := right[1..];
    }

    method Erase(k: K) returns (erased: bool)
      requires Valid()
      modifies this
      ensures Valid()
      ensures erased <==> HasKey(old(Contents()), k)
      ensures Contents() == Remove(old(Contents()), k) && TakenOut(old(Contents()), k, Contents())
      ensures |right| == if erased then old(|right|) - 1 else old(|right|)
      ensures k !in left
    {
      PairsDistinct(left, right);
      ErasedTakesOut(Contents(), k);
      hide TakenOut, DistinctKeys;
      PairsHasKey(left, right, k);
      PairsWithout(left, right, k);
      WithoutMembers(right, k);
      WithoutNoDup(right, k);
      erased := k in left;
      left := left - {k};
      right := Without(right, k);
    }
  }

  lemma {:induction false} PairsDistinct<K, V>(m: map<K, V>, ks: seq<K>)
    requires NoDup(ks) && forall i :: 0 <= i < |ks| ==> ks[i] in m
    ensures DistinctKeys(Pairs(m, ks))
  {
  }

  lemma {:induction false} RemoveIfFound<K, V>(l: Entries<K, V>, k: K)
    requires DistinctKeys(l)
    ensures Lookup(l, k).Some? ==> MadeNewest(l, k, Lookup(l, k).value, Touch(l, k))
  {
    if Lookup(l, k).Some? {
      RemoveTakesOut(l, k, Lookup(l, k).value);
    }
  }

  lemma {:induction false} FindMakesNewest<K, V>(l: Entries<K, V>, k: K)
    requires DistinctKeys(l)
    ensures Lookup(l, k).None? ==> !HasKey(l, k) && Touch(l, k) == l
    ensures Lookup(l, k).Some? ==>
              (k, Lookup(l, k).value) in l && MadeNewest(l, k, Lookup(l, k).value, Touch(l, k))
  {
    LookupSpec(l, k);
    hide MadeNewest;
    RemoveIfFound(l, k);
  }

  lemma {:induction false} BoundedPutMakesNewest<K, V>(capacity: nat, l: Entries<K, V>, k: K, v: V)
    requires capacity > 0 && DistinctKeys(l) && |l| <= capacity
    ensures MadeNewest(if |l| == capacity then l[1..] else l, k, v, BoundedPut(capacity, l, k, v))
  {
    var kept := if |l| == capacity then l[1..] else l;
    assert forall i :: 0 <= i < |kept| ==> kept[i] == l[i + |l| - |kept|];
    RemoveTakesOut(kept, k, v);
  }

  lemma {:induction false} ErasedTakesOut<K, V>(l: Entries<K, V>, k: K)
    requires DistinctKeys(l)
    ensures TakenOut(l, k, Remove(l, k))
  {
    if i :| 0 <= i < |l| && l[i].0 == k {
      RemoveTakesOut(l, k, l[i].1);
    } else {
      RemoveAbsent(l, k);
    }
  }

  lemma {:induction false} PairsHasKey<K, V>(m: map<K, V>, ks: seq<K>, k: K)
    requires forall i :: 0 <= i < |ks| ==> ks[i] in m
    ensures HasKey(Pairs(m, ks), k) <==> k in ks
  {
    if k in ks {
      var i :| 0 <= i < |ks| && ks[i] == k;
      assert Pairs(m, ks)[i].0 == k;
    }
  }

  // ------------------------------------------------------------------
  // Runs of operations
  // ------------------------------------------------------------------

  datatype Op<K, V> = Find(k: K) | Insert(k: K, v: V) | Erase(k: K)

  // the bounded cache
  function Bounded<K(==), V>(capacity: nat, l: Entries<K, V>, ops: seq<Op<K, V>>): Entries<K, V>
    decreases |ops|
  {
    if ops == [] then l else Bounded(capacity, BoundedOp(capacity, l, ops[0]), ops[1..])
  }

  function BoundedOp<K(==), V>(capacity: nat, l: Entries<K, V>, op: Op<K, V>): Entries<K, V> {
    match op
    case Find(k) => Touch(l, k)
    case Insert(k, v) => BoundedPut(capacity, l, k, v)
    case Erase(k) => Remove(l, k)
  }

  // The unbounded recency list beside it: a find that misses in the bounded cache
  // is no use of the key, so it leaves the recency list alone too.
  function RecencyOp<K(==), V>(l: Entries<K, V>, u: Entries<K, V>, op: Op<K, V>): Entries<K, V> {
    match op
    case Find(k) => if Lookup(l, k).Some? then Touch(u, k) else u
    case Insert(k, v) => Put(u, k, v)
    case Erase(k) => Remove(u, k)
  }

  function Recency<K(==), V>(capacity: nat, l: Entries<K, V>, u: Entries<K, V>, ops: seq<Op<K, V>>): Entries<K, V>
    decreases |ops|
  {
    if ops == [] then u
    else Recency(capacity, BoundedOp(capacity, l, ops[0]), RecencyOp(l, u, ops[0]), ops[1..])
  }

  ghost predicate IsSuffix<K, V>(l: Entries<K, V>, u: Entries<K, V>) {
    |l| <= |u| && u[|u| - |l|..] == l
  }

  ghost predicate Inv<K, V>(capacity: nat, l: Entries<K, V>, u: Entries<K, V>) {
    DistinctKeys(u) && IsSuffix(l, u) && |l| <= capacity
  }

  lemma {:induction false} SuffixSplit<K, V>(l: Entries<K, V>, u: Entries<K, V>) returns (a: Entries<K, V>)
    requires IsSuffix(l, u)
    ensures u == a + l
  {
    a := u[..|u| - |l|];
  }

  lemma {:induction false} SuffixDistinct<K, V>(l: Entries<K, V>, u: Entries<K, V>)
    requires IsSuffix(l, u) && DistinctKeys(u)
    ensures DistinctKeys(l)
  {
    assert forall i :: 0 <= i < |l| ==> l[i] == u[|u| - |l| + i];
  }

  lemma {:induction false} SuffixOfConcat<K, V>(a: Entries<K, V>, l: Entries<K, V>, x: Entries<K, V>)
    ensures IsSuffix(l + x, a + l + x)
  {
  }

  // A key of the suffix is looked up with the same value in the whole list.
  lemma {:induction false} SuffixLookup<K, V>(l: Entries<K, V>, u: Entries<K, V>, k: K)
    requires IsSuffix(l, u) && DistinctKeys(u) && Lookup(l, k).Some?
    ensures Lookup(u, k) == Lookup(l, k)
  {
    LookupSpec(l, k);
    LookupSpec(u, k);
    var i :| 0 <= i < |l| && l[i] == (k, Lookup(l, k).value);
    assert u[|u| - |l| + i] == l[i];
  }

  lemma {:induction false} PutKeepsSuffix<K, V>(l: Entries<K, V>, u: Entries<K, V>, k: K, v: V)
    requires IsSuffix(l, u)
    ensures IsSuffix(Put(l, k, v), Put(u, k, v))
    ensures IsSuffix(Remove(l, k), Remove(u, k))
  {
    var a := SuffixSplit(l, u);
    RemoveConcat(a, l, k);
    SuffixOfConcat(Remove(a, k), Remove(l, k), [(k, v)]);
    SuffixOfConcat(Remove(a, k), Remove(l, k), []);
    assert Remove(l, k) + [] == Remove(l, k) && Remove(u, k) + [] == Remove(u, k);
  }

  lemma {:induction false} BoundedPutKeepsInv<K, V>(capacity: nat, l: Entries<K, V>, u: Entries<K, V>, k: K, v: V)
    requires capacity > 0 && Inv(capacity, l, u)
    ensures Inv(capacity, BoundedPut(capacity, l, k, v), Put(u, k, v))
  {
    var kept := if |l| >= capacity && l != [] then l[1..] else l;
    assert IsSuffix(kept, u);
    PutKeepsSuffix(kept, u, k, v);
    PutDistinct(u, k, v);
    SuffixDistinct(kept, u);
    PutDistinct(kept, k, v);
  }

  lemma {:induction false} OpKeepsInv<K, V>(capacity: nat, l: Entries<K, V>, u: Entries<K, V>, op: Op<K, V>)
    requires capacity > 0 && Inv(capacity, l, u)
    ensures Inv(capacity, BoundedOp(capacity, l, op), RecencyOp(l, u, op))
  {
    SuffixDistinct(l, u);
    match op
    case Insert(k, v) => BoundedPutKeepsInv(capacity, l, u, k, v);
    case Erase(k) =>
      RemoveDistinct(u, k);
      RemoveDistinct(l, k);
      var a := SuffixSplit(l, u);
      RemoveConcat(a, l, k);
    case Find(k) =>
      if Lookup(l, k).Some? {
        var v := Lookup(l, k).value;
        LookupSpec(l, k);
        SuffixLookup(l, u, k);
        PutKeepsSuffix(l, u, k, v);
        PutDistinct(u, k, v);
        PutDistinct(l, k, v);
      }
  }

  /** After any run of inserts, finds and erases the cache is a suffix of the
      unbounded recency list, entry for entry, and never exceeds its capacity. */
  lemma {:induction false} CacheIsRecencySuffix<K,
    V>(capacity: nat, l: Entries<K, V>, u: Entries<K, V>, ops: seq<Op<K, V>>)
    requires capacity > 0 && Inv(capacity, l, u)
    ensures Inv(capacity, Bounded(capacity, l, ops), Recency(capacity, l, u, ops))
    decreases |ops|
  {
    if ops != [] {
      OpKeepsInv(capacity, l, u, ops[0]);
      CacheIsRecencySuffix(capacity, BoundedOp(capacity, l, ops[0]), RecencyOp(l, u, ops[0]), ops[1..]);
    }
  }

  // ------------------------------------------------------------------
  // How much it holds
  // ------------------------------------------------------------------

  // Everything ever inserted, or at least capacity - 1 entries.
  ghost predicate FullEnough<K, V>(capacity: nat, l: Entries<K, V>, u: Entries<K, V>) {
    l == u || |l| >= capacity - 1
  }

  lemma {:induction false} BoundedPutSize<K, V>(capacity: nat, l: Entries<K, V>, k: K, v: V)
    requires capacity > 0 && DistinctKeys(l) && |l| <= capacity
    ensures |BoundedPut(capacity, l, k, v)| ==
            if |l| == capacity then (if HasKey(l[1..], k) then capacity - 1 else capacity)
            else if HasKey(l, k) then |l| else |l| + 1
  {
    var kept := if |l| >= capacity then l[1..] else l;
    assert forall i :: 0 <= i < |kept| ==> kept[i] == l[i + |l| - |kept|];
    PutDistinct(kept, k, v);
  }

  lemma {:induction false} TouchSize<K, V>(l: Entries<K, V>, k: K)
    requires DistinctKeys(l)
    ensures |Touch(l, k)| == |l|
  {
    LookupSpec(l, k);
    RemoveDistinct(l, k);
  }

  lemma {:induction false} HoldsEnough<K, V>(capacity: nat, l: Entries<K, V>, u: Entries<K, V>, ops: seq<Op<K, V>>)
    requires capacity > 0 && Inv(capacity, l, u) && FullEnough(capacity, l, u)
    requires forall i :: 0 <= i < |ops| ==> !ops[i].Erase?
    ensures FullEnough(capacity, Bounded(capacity, l, ops), Recency(capacity, l, u, ops))
    decreases |ops|
  {
    if ops != [] {
      OpKeepsInv(capacity, l, u, ops[0]);
      SuffixDistinct(l, u);
      match ops[0] {
        case Insert(k, v) => BoundedPutSize(capacity, l, k, v);
        case Find(k) => TouchSize(l, k);
        case Erase(k) =>
      }
      HoldsEnough(capacity, BoundedOp(capacity, l, ops[0]), RecencyOp(l, u, ops[0]), ops[1..]);
    }
  }

  ghost function KeySet<K, V>(l: Entries<K, V>): set<K> {
    set x | x in l :: x.0
  }

  ghost function InsertedKeys<K, V>(ops: seq<Op<K, V>>): set<K> {
    set op | op in ops && op.Insert? :: op.k
  }

  lemma {:induction false} KeySetSize<K, V>(l: Entries<K, V>)
    requires DistinctKeys(l)
    ensures |KeySet(l)| == |l|
  {
    if l == [] {
      assert KeySet(l) == {};
    } else {
      assert forall i :: 0 <= i < |l[1..]| ==> l[1..][i] == l[i + 1];
      KeySetSize(l[1..]);
      assert forall x :: x in l <==> x == l[0] || x in l[1..];
      assert KeySet(l) == {l[0].0} + KeySet(l[1..]);
      assert l[0].0 !in KeySet(l[1..]);
    }
  }

  lemma {:induction false} PutKeys<K, V>(l: Entries<K, V>, k: K, v: V)
    ensures KeySet(Put(l, k, v)) == KeySet(l) + {k}
  {
    RemoveMembers(l, k);
    assert (k, v) in Put(l, k, v);
    assert forall x :: x in Put(l, k, v) <==> x == (k, v) || x in Remove(l, k);
    forall q | q in KeySet(Put(l, k, v))
      ensures q in KeySet(l) + {k}
    {
      var x :| x in Put(l, k, v) && x.0 == q;
      assert x == (k, v) || x in l;
    }
    forall q | q in KeySet(l) + {k}
      ensures q in KeySet(Put(l, k, v))
    {
      if q != k {
        var x :| x in l && x.0 == q;
        assert x in Put(l, k, v);
      }
    }
  }

  lemma {:induction false} RecencyKeys<K, V>(capacity: nat, l: Entries<K, V>, u: Entries<K, V>, ops: seq<Op<K, V>>)
    requires forall i :: 0 <= i < |ops| ==> !ops[i].Erase?
    ensures KeySet(Recency(capacity, l, u, ops)) == KeySet(u) + InsertedKeys(ops)
    decreases |ops|
  {
    if ops != [] {
      RecencyKeys(capacity, BoundedOp(capacity, l, ops[0]), RecencyOp(l, u, ops[0]), ops[1..]);
      assert forall x :: x in ops <==> x == ops[0] || x in ops[1..];
      match ops[0] {
        case Insert(k, v) =>
          PutKeys(u, k, v);
          assert InsertedKeys(ops) == {k} + InsertedKeys(ops[1..]);
        case Find(k) =>
          if Lookup(u, k).Some? {
            PutKeys(u, k, Lookup(u, k).value);
            LookupSpec(u, k);
          }
          assert InsertedKeys(ops) == InsertedKeys(ops[1..]);
        case Erase(k) =>
      }
    }
  }

  /** Without erases the cache holds all keys ever inserted, or at least capacity - 1
      of them: the last slot is lost only by re-inserting a present key when full. */
  lemma {:induction false} HoldsMinOfKeysAndCapacity<K, V>(capacity: nat, ops: seq<Op<K, V>>)
    requires capacity > 0
    requires forall i :: 0 <= i < |ops| ==> !ops[i].Erase?
    ensures var distinct := |InsertedKeys(ops)|;
            |Bounded(capacity, [], ops)| >= if distinct < capacity - 1 then distinct else capacity - 1
  {
    HoldsEnough<K, V>(capacity, [], [], ops);
    CacheIsRecencySuffix<K, V>(capacity, [], [], ops);
    RecencyKeys<K, V>(capacity, [], [], ops);
    KeySetSize(Recency<K, V>(capacity, [], [], ops));
    assert KeySet<K, V>([]) + InsertedKeys(ops) == InsertedKeys(ops);
  }
}
