/** The LRU cache seen from the operations alone: when each key was last used, which
    value was last inserted under it, and for how long it is kept. */
module LruHistory {
  import opened Sequences
  import opened LruCache

  // what the operations leave in a new cache
  function Cached<K(==), V>(capacity: nat, ops: seq<Op<K, V>>): Entries<K, V> {
    Bounded(capacity, [], ops)
  }

  // an insert of k, or a find of k that finds it
  predicate Uses<K(==), V>(l: Entries<K, V>, op: Op<K, V>, k: K) {
    op.k == k && (op.Insert? || (op.Find? && HasKey(l, k)))
  }

  // the number of the last operation that used k, or -1
  function LastUse<K(==), V>(capacity: nat, ops: seq<Op<K, V>>, k: K): (i: int)
    ensures -1 <= i < |ops|
    decreases |ops|
  {
    if ops == [] then -1
    else
      var n := |ops| - 1;
      if Uses(Cached(capacity, ops[..n]), ops[n], k) then n else LastUse(capacity, ops[..n], k)
  }

  // the value last inserted under k, unless k was erased since
  function LastValue<K(==), V>(ops: seq<Op<K, V>>, k: K): Option<V>
    decreases |ops|
  {
    if ops == [] then None
    else
      var n := |ops| - 1;
      if ops[n].k != k || ops[n].Find? then LastValue(ops[..n], k)
      else if ops[n].Insert? then Some(ops[n].v) else None
  }

  // one operation more
  lemma {:induction false} BoundedSnoc<K, V>(capacity: nat, l: Entries<K, V>, ops: seq<Op<K, V>>, op: Op<K, V>)
    ensures Bounded(capacity, l, ops + [op]) == BoundedOp(capacity, Bounded(capacity, l, ops), op)
    decreases |ops|
  {
    if ops == [] {
      assert ops + [op] == [op] && [op][1..] == [];
    } else {
      assert (ops + [op])[1..] == ops[1..] + [op];
      BoundedSnoc(capacity, BoundedOp(capacity, l, ops[0]), ops[1..], op);
    }
  }

  lemma {:induction false} LastUseSnoc<K, V>(capacity: nat, ops: seq<Op<K, V>>, op: Op<K, V>, k: K)
    ensures LastUse(capacity, ops + [op], k)
         == if Uses(Cached(capacity, ops), op, k) then |ops| else LastUse(capacity, ops, k)
    ensures LastValue(ops + [op], k)
         == if op.k != k || op.Find? then LastValue(ops, k) else if op.Insert? then Some(op.v) else None
  {
    assert (ops + [op])[..|ops|] == ops;
  }

  lemma {:induction false} CachedIsValid<K, V>(capacity: nat, ops: seq<Op<K, V>>)
    requires capacity > 0
    ensures DistinctKeys(Cached(capacity, ops)) && |Cached(capacity, ops)| <= capacity
  {
    CacheIsRecencySuffix<K, V>(capacity, [], [], ops);
    SuffixDistinct(Cached(capacity, ops), Recency<K, V>(capacity, [], [], ops));
  }

  // each entry has been used, in the order of the entries, and holds the value last inserted
  ghost predicate InUseOrder<K, V>(capacity: nat, ops: seq<Op<K, V>>, l: Entries<K, V>) {
    && (forall i :: 0 <= i < |l| ==> 0 <= LastUse(capacity, ops, l[i].0) && LastValue(ops, l[i].0) == Some(l[i].1))
    && (forall i, j :: 0 <= i < j < |l| ==> LastUse(capacity, ops, l[i].0) < LastUse(capacity, ops, l[j].0))
  }

  lemma {:induction false} DropKeepsOrder<K, V>(capacity: nat, ops: seq<Op<K, V>>, l: Entries<K, V>)
    requires InUseOrder(capacity, ops, l) && l != []
    ensures InUseOrder(capacity, ops, l[1..])
  {
    hide LastUse, LastValue;
    assert forall i :: 0 <= i < |l[1..]| ==> l[1..][i] == l[i + 1];
  }

  // where entry j of the rest comes from
  function Before(i: nat, j: nat): nat { if j < i then j else j + 1 }

  lemma {:induction false} DropAtEntries<K, V>(l: Entries<K, V>, i: nat)
    requires i < |l|
    ensures |DropAt(l, i)| == |l| - 1
    ensures forall j :: 0 <= j < |l| - 1 ==> DropAt(l, i)[j] == l[Before(i, j)]
  {
  }

  lemma {:induction false} DropAtKeepsOrder<K, V>(capacity: nat, ops: seq<Op<K, V>>, l: Entries<K, V>, i: nat)
    requires InUseOrder(capacity, ops, l) && i < |l|
    ensures InUseOrder(capacity, ops, DropAt(l, i))
  {
    DropAtEntries(l, i);
    hide LastUse, LastValue, DropAt;
  }

  lemma {:induction false} DropAtLacks<K, V>(l: Entries<K, V>, i: nat)
    requires DistinctKeys(l) && i < |l|
    ensures !HasKey(DropAt(l, i), l[i].0)
  {
    DropAtEntries(l, i);
    hide DropAt;
  }

  lemma {:induction false} TakingOutKeepsOrder<K, V>(capacity: nat, ops: seq<Op<K, V>>, l: Entries<K, V>, k: K,
                                                     m: Entries<K, V>)
    requires InUseOrder(capacity, ops, l) && DistinctKeys(l) && TakenOut(l, k, m)
    ensures InUseOrder(capacity, ops, m) && !HasKey(m, k)
  {
    hide InUseOrder, DistinctKeys, DropAt;
    if HasKey(l, k) {
      var i :| 0 <= i < |l| && l[i].0 == k && m == DropAt(l, i);
      DropAtKeepsOrder(capacity, ops, l, i);
      DropAtLacks(l, i);
    }
  }

  // an operation on k leaves the history of the other keys alone
  lemma {:induction false} OthersKeepOrder<K, V>(capacity: nat, ops: seq<Op<K, V>>, l: Entries<K, V>, op: Op<K, V>)
    requires InUseOrder(capacity, ops, l)
    requires !HasKey(l, op.k) || (op.Find? && !HasKey(Cached(capacity, ops), op.k))
    ensures InUseOrder(capacity, ops + [op], l)
  {
    forall i | 0 <= i < |l|
      ensures LastUse(capacity, ops + [op], l[i].0) == LastUse(capacity, ops, l[i].0)
      ensures LastValue(ops + [op], l[i].0) == LastValue(ops, l[i].0)
    {
      LastUseSnoc(capacity, ops, op, l[i].0);
    }
    hide LastUse, LastValue;
  }

  lemma {:induction false} NewestKeepsOrder<K, V>(capacity: nat, ops: seq<Op<K, V>>, l: Entries<K, V>, op: Op<K, V>,
                                                  v: V, m: Entries<K, V>)
    requires InUseOrder(capacity, ops, l) && DistinctKeys(l) && MadeNewest(l, op.k, v, m)
    requires Uses(Cached(capacity, ops), op, op.k) && LastValue(ops + [op], op.k) == Some(v)
    ensures InUseOrder(capacity, ops + [op], m)
  {
    var front := m[..|m| - 1];
    TakingOutKeepsOrder(capacity, ops, l, op.k, front);
    OthersKeepOrder(capacity, ops, front, op);
    LastUseSnoc(capacity, ops, op, op.k);
    forall i | 0 <= i < |front|
      ensures LastUse(capacity, ops + [op], front[i].0) < |ops|
    {
      assert front[i].0 != op.k;
      LastUseSnoc(capacity, ops, op, front[i].0);
    }
    hide LastUse, LastValue, Uses;
    assert forall i :: 0 <= i < |front| ==> m[i] == front[i];
  }

  lemma {:induction false} InsertKeepsOrder<K, V>(capacity: nat, ops: seq<Op<K, V>>, k: K, v: V)
    requires capacity > 0 && InUseOrder(capacity, ops, Cached(capacity, ops))
    ensures InUseOrder(capacity, ops + [Insert(k, v)], BoundedPut(capacity, Cached(capacity, ops), k, v))
  {
    var l := Cached(capacity, ops);
    CachedIsValid(capacity, ops);
    LastUseSnoc(capacity, ops, Insert(k, v), k);
    BoundedPutMakesNewest(capacity, l, k, v);
    var kept := if |l| == capacity then l[1..] else l;
    if |l| == capacity {
      DropKeepsOrder(capacity, ops, l);
    }
    assert DistinctKeys(kept);
    NewestKeepsOrder(capacity, ops, kept, Insert(k, v), v, BoundedPut(capacity, l, k, v));
  }

  lemma {:induction false} FindKeepsOrder<K, V>(capacity: nat, ops: seq<Op<K, V>>, k: K)
    requires capacity > 0 && InUseOrder(capacity, ops, Cached(capacity, ops))
    ensures InUseOrder(capacity, ops + [Op.Find(k)], Touch(Cached(capacity, ops), k))
  {
    var l := Cached(capacity, ops);
    CachedIsValid(capacity, ops);
    LookupSpec(l, k);
    if Lookup(l, k).Some? {
      var v := Lookup(l, k).value;
      LastUseSnoc(capacity, ops, Op.Find(k), k);
      RemoveIfFound(l, k);
      NewestKeepsOrder(capacity, ops, l, Op.Find(k), v, Touch(l, k));
    } else {
      OthersKeepOrder(capacity, ops, l, Op.Find(k));
    }
  }

  lemma {:induction false} EraseKeepsOrder<K, V>(capacity: nat, ops: seq<Op<K, V>>, k: K)
    requires capacity > 0 && InUseOrder(capacity, ops, Cached(capacity, ops))
    ensures InUseOrder(capacity, ops + [Op.Erase(k)], Remove(Cached(capacity, ops), k))
  {
    var l := Cached(capacity, ops);
    CachedIsValid(capacity, ops);
    ErasedTakesOut(l, k);
    TakingOutKeepsOrder(capacity, ops, l, k, Remove(l, k));
    OthersKeepOrder(capacity, ops, Remove(l, k), Op.Erase(k));
  }

  /** After every run of operations the entries stand in the order in which their keys were last inserted
      or found, and each holds the value last inserted under its key. */
  lemma {:induction false} EntriesInUseOrder<K, V>(capacity: nat, ops: seq<Op<K, V>>)
    requires capacity > 0
    ensures InUseOrder(capacity, ops, Cached(capacity, ops))
    decreases |ops|
  {
    if ops != [] {
      var n := |ops| - 1;
      var front, op := ops[..n], ops[n];
      EntriesInUseOrder(capacity, front);
      BoundedSnoc(capacity, [], front, op);
      assert front + [op] == ops;
      hide InUseOrder, BoundedPut, Touch, Remove;
      match op
      case Insert(k, v) => InsertKeepsOrder(capacity, front, k, v);
      case Find(k) => FindKeepsOrder(capacity, front, k);
      case Erase(k) => EraseKeepsOrder(capacity, front, k);
    }
  }

  // ------------------------------------------------------------------
  // Which keys are there
  // ------------------------------------------------------------------

  // q is in the cache, and of all keys there its last use is the longest ago
  ghost predicate LeastRecent<K(!new), V>(capacity: nat, ops: seq<Op<K, V>>, q: K) {
    && HasKey(Cached(capacity, ops), q)
    && forall p :: HasKey(Cached(capacity, ops), p) ==> LastUse(capacity, ops, q) <= LastUse(capacity, ops, p)
  }

  lemma {:induction false} LeastRecentIsFirst<K(!new), V>(capacity: nat, ops: seq<Op<K, V>>, q: K)
    requires capacity > 0
    ensures var l := Cached(capacity, ops); LeastRecent(capacity, ops, q) <==> l != [] && l[0].0 == q
  {
    var l := Cached(capacity, ops);
    EntriesInUseOrder(capacity, ops);
    hide LastUse, LastValue, Cached;
    if LeastRecent(capacity, ops, q) {
      var i :| 0 <= i < |l| && l[i].0 == q;
      assert HasKey(l, l[0].0);
    }
    if l != [] && l[0].0 == q {
      assert HasKey(l, q);
      forall p | HasKey(l, p)
        ensures LastUse(capacity, ops, q) <= LastUse(capacity, ops, p)
      {
        var i :| 0 <= i < |l| && l[i].0 == p;
      }
    }
  }

  lemma {:induction false} TakenOutKeys<K, V>(l: Entries<K, V>, k: K, m: Entries<K, V>, q: K)
    requires DistinctKeys(l) && TakenOut(l, k, m)
    ensures HasKey(m, q) <==> HasKey(l, q) && q != k
  {
    if HasKey(l, k) {
      var i :| 0 <= i < |l| && l[i].0 == k && m == DropAt(l, i);
      assert forall j :: 0 <= j < |m| ==> m[j] == l[if j < i then j else j + 1];
      if j :| 0 <= j < |l| && l[j].0 == q {
        assert j < i ==> m[j] == l[j];
        assert j > i ==> m[j - 1] == l[j];
      }
    }
  }

  lemma {:induction false} MadeNewestKeys<K, V>(l: Entries<K, V>, k: K, v: V, m: Entries<K, V>, q: K)
    requires DistinctKeys(l) && MadeNewest(l, k, v, m)
    ensures HasKey(m, q) <==> HasKey(l, q) || q == k
  {
    var front := m[..|m| - 1];
    TakenOutKeys(l, k, front, q);
    assert forall j :: 0 <= j < |front| ==> m[j] == front[j];
  }

  /** An insert into a full cache drops exactly the key whose last use is the longest ago, unless that is
      the key inserted; nothing else drops a key but its own erase, and only an insert adds one. */
  lemma {:induction false} DropsLeastRecent<K(!new), V>(capacity: nat, ops: seq<Op<K, V>>, op: Op<K, V>, q: K)
    requires capacity > 0
    ensures var l := Cached(capacity, ops);
            HasKey(Cached(capacity, ops + [op]), q) <==>
            (match op
             case Find(_) => HasKey(l, q)
             case Erase(k) => HasKey(l, q) && q != k
             case Insert(k, _) => q == k || (HasKey(l, q) && !(|l| == capacity && LeastRecent(capacity, ops, q))))
  {
    var l := Cached(capacity, ops);
    CachedIsValid(capacity, ops);
    BoundedSnoc(capacity, [], ops, op);
    LeastRecentIsFirst(capacity, ops, q);
    hide LeastRecent;
    match op
    case Insert(k, v) =>
      BoundedPutMakesNewest(capacity, l, k, v);
      var kept := if |l| == capacity then l[1..] else l;
      MadeNewestKeys(kept, k, v, BoundedPut(capacity, l, k, v), q);
      if |l| == capacity {
        HasKeyTail(l, q);
      }
    case Find(k) =>
      LookupSpec(l, k);
      if Lookup(l, k).Some? {
        RemoveIfFound(l, k);
        MadeNewestKeys(l, k, Lookup(l, k).value, Touch(l, k), q);
      }
    case Erase(k) =>
      ErasedTakesOut(l, k);
      TakenOutKeys(l, k, Remove(l, k), q);
  }

  // ------------------------------------------------------------------
  // How long a key is kept
  // ------------------------------------------------------------------

  // how many of the operations used some key
  function UseCount<K(==), V>(capacity: nat, l: Entries<K, V>, ops: seq<Op<K, V>>): nat
    decreases |ops|
  {
    if ops == [] then 0
    else (if Uses(l, ops[0], ops[0].k) then 1 else 0) + UseCount(capacity, BoundedOp(capacity, l, ops[0]), ops[1..])
  }

  // k is there, with at most n newer entries
  ghost predicate Within<K, V>(l: Entries<K, V>, k: K, n: int) {
    exists i :: 0 <= i < |l| && l[i].0 == k && |l| - 1 - i <= n
  }

  lemma {:induction false} NewestWithin<K, V>(l: Entries<K, V>, k: K, v: V, m: Entries<K, V>, q: K, n: nat)
    requires DistinctKeys(l) && MadeNewest(l, k, v, m) && (q == k || Within(l, q, n))
    ensures Within(m, q, n + 1)
  {
    var front := m[..|m| - 1];
    if q == k {
      assert m[|m| - 1].0 == q;
    } else {
      hide MadeNewest, DistinctKeys, TakenOut, HasKey;
      TakenOutWithin(l, k, front, q, n);
      var j :| 0 <= j < |front| && front[j].0 == q && |front| - 1 - j <= n;
      assert m[j].0 == q;
    }
  }

  lemma {:induction false} TakenOutWithin<K, V>(l: Entries<K, V>, k: K, m: Entries<K, V>, q: K, n: int)
    requires DistinctKeys(l) && TakenOut(l, k, m) && q != k && Within(l, q, n)
    ensures Within(m, q, n)
  {
    var j :| 0 <= j < |l| && l[j].0 == q && |l| - 1 - j <= n;
    if HasKey(l, k) {
      var i :| 0 <= i < |l| && l[i].0 == k && m == DropAt(l, i);
      assert m[if j < i then j else j - 1].0 == q;
    }
  }

  lemma {:induction false} DropWithin<K, V>(l: Entries<K, V>, q: K, n: nat)
    requires DistinctKeys(l) && Within(l, q, n) && n + 1 < |l|
    ensures DistinctKeys(l[1..]) && Within(l[1..], q, n)
  {
    var m := l[1..];
    assert forall i :: 0 <= i < |m| ==> m[i] == l[i + 1];
    var j :| 0 <= j < |l| && l[j].0 == q && |l| - 1 - j <= n;
    assert m[j - 1].0 == q;
  }

  lemma {:induction false} InsertWithin<K, V>(capacity: nat, l: Entries<K, V>, k: K, v: V, q: K, n: nat)
    requires DistinctKeys(l) && |l| <= capacity && Within(l, q, n) && n + 1 < capacity
    ensures Within(BoundedPut(capacity, l, k, v), q, n + 1)
  {
    var kept := if |l| == capacity then l[1..] else l;
    hide Within, DistinctKeys, MadeNewest, BoundedPut;
    BoundedPutMakesNewest(capacity, l, k, v);
    if |l| == capacity {
      DropWithin(l, q, n);
    }
    NewestWithin(kept, k, v, BoundedPut(capacity, l, k, v), q, n);
  }

  lemma {:induction false} FindWithin<K, V>(l: Entries<K, V>, k: K, q: K, n: nat)
    requires DistinctKeys(l) && Within(l, q, n)
    ensures Within(Touch(l, k), q, if HasKey(l, k) then n + 1 else n)
  {
    LookupSpec(l, k);
    if HasKey(l, k) {
      RemoveIfFound(l, k);
      hide Within, DistinctKeys, MadeNewest, HasKey, Touch;
      NewestWithin(l, k, Lookup(l, k).value, Touch(l, k), q, n);
    }
  }

  // an operation that uses some key puts one entry more behind q; no other does
  lemma {:induction false} StepWithin<K, V>(capacity: nat, l: Entries<K, V>, op: Op<K, V>, q: K, n: nat)
    requires DistinctKeys(l) && |l| <= capacity && Within(l, q, n) && op != Op.Erase(q)
    requires Uses(l, op, op.k) ==> n + 1 < capacity
    requires capacity > 0
    ensures var m := BoundedOp(capacity, l, op); Within(m, q, if Uses(l, op, op.k) then n + 1 else n)
  {
    hide Within, DistinctKeys, HasKey, Touch, BoundedPut, Remove, TakenOut;
    match op
    case Insert(k, v) => InsertWithin(capacity, l, k, v, q, n);
    case Find(k) => FindWithin(l, k, q, n);
    case Erase(k) =>
      ErasedTakesOut(l, k);
      TakenOutWithin(l, k, Remove(l, k), q, n);
  }

  lemma {:induction false} StepIsValid<K, V>(capacity: nat, l: Entries<K, V>, op: Op<K, V>)
    requires capacity > 0 && DistinctKeys(l) && |l| <= capacity
    ensures var m := BoundedOp(capacity, l, op); DistinctKeys(m) && |m| <= capacity
  {
    OpKeepsInv(capacity, l, l, op);
    hide BoundedOp, RecencyOp;
    SuffixDistinct(BoundedOp(capacity, l, op), RecencyOp(l, l, op));
  }

  predicate NeverErased<K(==), V>(ops: seq<Op<K, V>>, q: K) {
    forall i :: 0 <= i < |ops| ==> ops[i] != Op.Erase(q)
  }

  lemma {:induction false} NeverErasedRest<K, V>(ops: seq<Op<K, V>>, q: K)
    requires NeverErased(ops, q) && ops != []
    ensures ops[0] != Op.Erase(q) && NeverErased(ops[1..], q)
  {
  }

  lemma {:induction false} StaysWithin<K, V>(capacity: nat, l: Entries<K, V>, ops: seq<Op<K, V>>, q: K, n: nat)
    requires capacity > 0 && DistinctKeys(l) && |l| <= capacity && Within(l, q, n)
    requires n + UseCount(capacity, l, ops) < capacity && NeverErased(ops, q)
    ensures Within(Bounded(capacity, l, ops), q, n + UseCount(capacity, l, ops))
    decreases |ops|
  {
    hide BoundedOp, Within, Uses, DistinctKeys, NeverErased;
    if ops != [] {
      var m := BoundedOp(capacity, l, ops[0]);
      var more := if Uses(l, ops[0], ops[0].k) then 1 else 0;
      assert UseCount(capacity, l, ops) == more + UseCount(capacity, m, ops[1..]);
      assert Bounded(capacity, l, ops) == Bounded(capacity, m, ops[1..]);
      hide UseCount, Bounded;
      NeverErasedRest(ops, q);
      StepWithin(capacity, l, ops[0], q, n);
      StepIsValid(capacity, l, ops[0]);
      StaysWithin(capacity, m, ops[1..], q, n + more);
    }
  }

  /** A key that was inserted is found as long as it is not erased and fewer than `capacity` inserts and
      successful finds came after. */
  lemma {:induction false} KeptForCapacityUses<K, V>(capacity: nat, l: Entries<K, V>, k: K, v: V, ops: seq<Op<K, V>>)
    requires capacity > 0 && DistinctKeys(l) && |l| <= capacity && NeverErased(ops, k)
    requires UseCount(capacity, BoundedPut(capacity, l, k, v), ops) < capacity
    ensures HasKey(Bounded(capacity, BoundedPut(capacity, l, k, v), ops), k)
  {
    var m := BoundedPut(capacity, l, k, v);
    BoundedPutMakesNewest(capacity, l, k, v);
    assert m[|m| - 1].0 == k;
    assert Within(m, k, 0);
    BoundedPutKeepsInv(capacity, l, l, k, v);
    SuffixDistinct(m, Put(l, k, v));
    StaysWithin(capacity, m, ops, k, 0);
  }

  /** Counting the inserts alone would not do: with room for two, the find of an older key makes a
      single insert drop the newer one. */
  lemma {:induction false} FindsCountToo<K, V>(a: K, b: K, c: K, v: V)
    requires a != b && b != c && a != c
    ensures !HasKey(Cached(2, [Insert(a, v), Insert(b, v), Op.Find(a), Insert(c, v)]), b)
  {
    var ops := [Insert(a, v), Insert(b, v), Op.Find(a), Insert(c, v)];
    assert ops[..2] == [Insert(a, v)] + [Insert(b, v)];
    assert ops[..3] == ops[..2] + [Op.Find(a)];
    assert ops == ops[..3] + [Insert(c, v)];
    BoundedSnoc<K, V>(2, [], [Insert(a, v)], Insert(b, v));
    BoundedSnoc<K, V>(2, [], ops[..2], Op.Find(a));
    BoundedSnoc<K, V>(2, [], ops[..3], Insert(c, v));
    assert Cached(2, [Insert(a, v)]) == [(a, v)];
    var two := [(a, v), (b, v)];
    assert two[1..] == [(b, v)] && [(b, v), (a, v)][1..] == [(a, v)];
    assert Remove([(a, v)], b) == [(a, v)] && Remove([(a, v)], c) == [(a, v)];
    assert Cached(2, ops[..2]) == two;
    assert Remove(two, a) == [(b, v)];
    assert Cached(2, ops[..3]) == [(b, v), (a, v)];
    assert Cached(2, ops) == [(a, v), (c, v)];
  }
}
