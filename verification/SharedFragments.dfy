/** Deduplicated fragment downloads and the reference counts of the buffers they share.

    `download_fragment` keeps a table from dedup key to the callers that wait
    for the download in progress.  The first caller of a key leads: it downloads,
    verifies and unpacks into a fresh shared buffer (count 1), registers one more
    usage for a pending fragment-cache add, registers one usage per waiter when it
    hands the buffer out, and removes the table entry.  Every holder unregisters
    its usage once; the buffer is freed when the count drops to zero.
    Callers, cache adds and releases interleave in any order. */
module SharedFragments {
  import opened Sequences

  // location, namespace, object, chunk and fragment (0 when k = 1), as one value
  type Key = nat
  type Caller = nat
  type BufferId = nat

  datatype Result = Fragment(buffer: BufferId) | Error

  datatype Flight =
    | Downloading(key: Key, leader: Caller)                     // the OSD read is in progress
    | Unpacked(key: Key, leader: Caller, buffer: BufferId)      // buffer made, wakers not served yet

  datatype Holder = ByCaller(c: Caller) | ByCacheAdd

  // `count` is the SharedBuffer's counter, `frees` how often its memory was freed.
  datatype Buffer = Buffer(count: int, frees: nat)

  // `flights` lists the downloads in progress, whoever started them.
  // `holders` is bookkeeping: who still has to call unregister_usage.
  datatype State = State(
    table: map<Key, seq<Caller>>,
    flights: set<Flight>,
    called: map<Caller, Key>,
    results: map<Caller, Result>,
    buffers: seq<Buffer>,
    holders: seq<set<Holder>>)

  predicate Init(s: State) {
    s == State(map[], {}, map[], map[], [], [])
  }

  datatype Event =
    | Call(c: Caller, key: Key)
    | Unpack(f: Flight, cacheOnRead: bool)
    | Serve(f: Flight)
    | FailFlight(f: Flight)
    | CacheAddDone(b: BufferId)
    | Release(c: Caller)

  predicate Enabled(s: State, e: Event) {
    match e
    case Call(c, _) => c !in s.called
    case Unpack(f, _) => f in s.flights && f.Downloading?
    case Serve(f) => f in s.flights && f.Unpacked? && f.key in s.table && f.buffer < |s.buffers| == |s.holders|
    case FailFlight(f) => f in s.flights && f.Downloading? && f.key in s.table
    case CacheAddDone(b) => b < |s.buffers| == |s.holders| && ByCacheAdd in s.holders[b]
    case Release(c) =>
      && c in s.results && s.results[c].Fragment? && s.results[c].buffer < |s.buffers| == |s.holders|
      && ByCaller(c) in s.holders[s.results[c].buffer]
  }

  function CallerSet(cs: seq<Caller>): set<Caller> {
    set c | c in cs
  }

  function HolderSet(cs: seq<Caller>): set<Holder> {
    set c | c in cs :: ByCaller(c)
  }

  function RegisterSharing(b: Buffer, n: nat): Buffer {
    b.(count := b.count + n)
  }

  function UnregisterUsage(b: Buffer): Buffer {
    Buffer(b.count - 1, if b.count - 1 == 0 then b.frees + 1 else b.frees)
  }

  // everybody in cs gets r
  function Answer(results: map<Caller, Result>, cs: set<Caller>, r: Result): map<Caller, Result> {
    results + map c | c in cs :: r
  }

  function DropHolder(s: State, b: BufferId, h: Holder): State
    requires b < |s.buffers| == |s.holders|
  {
    s.(buffers := s.buffers[b := UnregisterUsage(s.buffers[b])],
       holders := s.holders[b := s.holders[b] - {h}])
  }

  function DoUnpack(s: State, f: Flight, cacheOnRead: bool): State
    requires f.Downloading?
  {
    var b := Buffer(1, 0);
    s.(flights := s.flights - {f} + {Unpacked(f.key, f.leader, |s.buffers|)},
       buffers := s.buffers + [if cacheOnRead then RegisterSharing(b, 1) else b],
       holders := s.holders + [{ByCaller(f.leader)} + (if cacheOnRead then {ByCacheAdd} else {})])
  }

  function DoServe(s: State, f: Flight): State
    requires Enabled(s, Serve(f))
  {
    var wakers := s.table[f.key];
    s.(table := s.table - {f.key},
       flights := s.flights - {f},
       buffers := s.buffers[f.buffer := RegisterSharing(s.buffers[f.buffer], |wakers|)],
       holders := s.holders[f.buffer := s.holders[f.buffer] + HolderSet(wakers)],
       results := Answer(s.results, {f.leader} + CallerSet(wakers), Fragment(f.buffer)))
  }

  function Step(s: State, e: Event): State
    requires Enabled(s, e)
  {
    match e
    case Call(c, key) =>
      if key in s.table then
        s.(table := s.table[key := [c] + s.table[key]], called := s.called[c := key])
      else
        s.(table := s.table[key := []], called := s.called[c := key],
           flights := s.flights + {Downloading(key, c)})
    case Unpack(f, cacheOnRead) => DoUnpack(s, f, cacheOnRead)
    case Serve(f) => DoServe(s, f)
    case FailFlight(f) =>
      s.(table := s.table - {f.key}, flights := s.flights - {f},
         results := Answer(s.results, {f.leader} + CallerSet(s.table[f.key]), Error))
    case CacheAddDone(b) => DropHolder(s, b, ByCacheAdd)
    case Release(c) => DropHolder(s, s.results[c].buffer, ByCaller(c))
  }

  predicate Runs(s: State, es: seq<Event>)
    decreases |es|
  {
    es == [] || (Enabled(s, es[0]) && Runs(Step(s, es[0]), es[1..]))
  }

  function After(s: State, es: seq<Event>): State
    requires Runs(s, es)
    decreases |es|
  {
    if es == [] then s else After(Step(s, es[0]), es[1..])
  }

  // ------------------------------------------------------------------
  // Invariant
  // ------------------------------------------------------------------

  // caller c is waiting in key's table entry
  predicate Waits(s: State, key: Key, c: Caller) {
    key in s.table && c in s.table[key]
  }

  predicate Leads(s: State, c: Caller) {
    exists f :: f in s.flights && f.leader == c
  }

  // The table and the flights in progress belong to each other, key by key.
  ghost predicate TableInv(s: State) {
    && (forall f :: f in s.flights ==> f.key in s.table)
    && (forall key :: key in s.table ==> exists f :: f in s.flights && f.key == key)
    && (forall f, g :: f in s.flights && g in s.flights && f.key == g.key ==> f == g)
  }

  // Everybody waiting, leading or answered called with that key, and is in one place only.
  ghost predicate CallerInv(s: State) {
    && (forall key :: key in s.table ==> NoDup(s.table[key]))
    && (forall key, c :: Waits(s, key, c) ==> c in s.called && s.called[c] == key && c !in s.results && !Leads(s, c))
    && (forall f :: f in s.flights ==> f.leader in s.called && s.called[f.leader] == f.key && f.leader !in s.results)
    && (forall c :: c in s.results ==> c in s.called)
  }

  // The counter is the number of holders, and the memory is freed once, when the last one left.
  ghost predicate CountInv(s: State, b: BufferId)
    requires b < |s.buffers| == |s.holders|
  {
    && s.buffers[b].count == |s.holders[b]|
    && s.buffers[b].frees == if s.holders[b] == {} then 1 else 0
  }

  // Only the leader (before serving), the answered callers and the cache add hold a buffer.
  ghost predicate HolderInv(s: State, b: BufferId)
    requires b < |s.buffers| == |s.holders|
  {
    forall c :: ByCaller(c) in s.holders[b] ==>
      || (exists f :: f in s.flights && f.Unpacked? && f.leader == c && f.buffer == b)
      || (c in s.results && s.results[c] == Fragment(b))
  }

  ghost predicate Inv(s: State) {
    && TableInv(s) && CallerInv(s)
    && |s.buffers| == |s.holders|
    && (forall b :: 0 <= b < |s.buffers| ==> CountInv(s, b) && HolderInv(s, b))
    && FlightInv(s)
  }

  // An unserved buffer is held by its own leader only for callers.
  ghost predicate FlightInv(s: State)
    requires |s.buffers| == |s.holders|
  {
    && (forall f :: f in s.flights && f.Unpacked? ==>
          f.buffer < |s.buffers| && ByCaller(f.leader) in s.holders[f.buffer])
    && (forall f, g :: f in s.flights && g in s.flights && f.Unpacked? && g.Unpacked? && f.buffer == g.buffer ==>
          f == g)
  }

  lemma {:induction false} HolderSetSize(cs: seq<Caller>)
    requires NoDup(cs)
    ensures |HolderSet(cs)| == |cs|
  {
    if cs != [] {
      var rest := cs[1..];
      assert forall i :: 0 <= i < |rest| ==> rest[i] == cs[i + 1];
      HolderSetSize(rest);
      assert forall c :: c in cs <==> c == cs[0] || c in rest;
      assert HolderSet(cs) == {ByCaller(cs[0])} + HolderSet(rest);
      assert cs[0] !in rest;
    } else {
      assert HolderSet(cs) == {};
    }
  }

  lemma {:induction false} CallKeepsTable(s: State, c: Caller, key: Key)
    requires TableInv(s) && Enabled(s, Call(c, key))
    ensures TableInv(Step(s, Call(c, key)))
  {
    var t := Step(s, Call(c, key));
    forall k | k in t.table
      ensures exists f :: f in t.flights && f.key == k
    {
      if k in s.table {
        var f :| f in s.flights && f.key == k;
        assert f in t.flights;
      } else {
        assert Downloading(key, c) in t.flights;
      }
    }
  }

  lemma {:induction false} CallKeepsCallers(s: State, c: Caller, key: Key)
    requires CallerInv(s) && Enabled(s, Call(c, key))
    ensures CallerInv(Step(s, Call(c, key)))
  {
    var t := Step(s, Call(c, key));
    forall k, d | Waits(t, k, d)
      ensures d in t.called && t.called[d] == k && d !in t.results && !Leads(t, d)
    {
      if Leads(t, d) {
        var f :| f in t.flights && f.leader == d;
        assert f in s.flights || f == Downloading(key, c);
      }
      if d == c {
        assert !Waits(s, k, c);
        assert k == key && key in s.table;
      } else {
        assert Waits(s, k, d);
      }
    }
    forall k | k in t.table
      ensures NoDup(t.table[k])
    {
      assert key in s.table && k == key ==> !Waits(s, key, c);
    }
  }

  // Holders stay justified when every flight that is gone left its buffer's holders answered.
  lemma {:induction false} HoldersStay(s: State, t: State, b: BufferId)
    requires |s.buffers| == |s.holders| && |t.buffers| == |t.holders| && b < |s.buffers| && b < |t.buffers|
    requires HolderInv(s, b) && t.holders[b] <= s.holders[b]
    requires forall f :: f in s.flights && f.Unpacked? ==> f in t.flights
    requires forall c :: c in s.results ==> c in t.results && t.results[c] == s.results[c]
    ensures HolderInv(t, b)
  {
    forall c | ByCaller(c) in t.holders[b]
      ensures (exists h :: h in t.flights && h.Unpacked? && h.leader == c && h.buffer == b)
           || (c in t.results && t.results[c] == Fragment(b))
    {
      if h :| h in s.flights && h.Unpacked? && h.leader == c && h.buffer == b {
        assert h in t.flights;
      }
    }
  }

  // A state that only gained flights still being downloaded keeps its buffers' books.
  lemma {:induction false} BuffersStay(s: State, t: State)
    requires |s.buffers| == |s.holders| && FlightInv(s)
    requires forall b :: 0 <= b < |s.buffers| ==> CountInv(s, b) && HolderInv(s, b)
    requires t.buffers == s.buffers && t.holders == s.holders && t.results == s.results
    requires forall f: Flight :: f.Unpacked? ==> (f in t.flights <==> f in s.flights)
    ensures FlightInv(t) && forall b :: 0 <= b < |t.buffers| ==> CountInv(t, b) && HolderInv(t, b)
  {
    forall b | 0 <= b < |t.buffers|
      ensures CountInv(t, b) && HolderInv(t, b)
    {
      assert CountInv(s, b) && HolderInv(s, b);
      HoldersStay(s, t, b);
    }
  }

  lemma {:induction false} CallKeepsInv(s: State, c: Caller, key: Key)
    requires Inv(s) && Enabled(s, Call(c, key))
    ensures Inv(Step(s, Call(c, key)))
  {
    var t := Step(s, Call(c, key));
    hide TableInv, CallerInv, FlightInv, CountInv, HolderInv;
    CallKeepsTable(s, c, key);
    CallKeepsCallers(s, c, key);
    BuffersStay(s, t);
  }

  lemma {:induction false} UnpackKeepsTable(s: State, f: Flight, cacheOnRead: bool)
    requires TableInv(s) && Enabled(s, Unpack(f, cacheOnRead))
    ensures TableInv(DoUnpack(s, f, cacheOnRead))
  {
    var t := DoUnpack(s, f, cacheOnRead);
    var g := Unpacked(f.key, f.leader, |s.buffers|);
    forall k | k in t.table
      ensures exists h :: h in t.flights && h.key == k
    {
      var h :| h in s.flights && h.key == k;
      assert (if h == f then g else h) in t.flights;
    }
  }

  lemma {:induction false} UnpackKeepsLeaders(s: State, f: Flight, cacheOnRead: bool, c: Caller)
    requires Enabled(s, Unpack(f, cacheOnRead))
    ensures Leads(DoUnpack(s, f, cacheOnRead), c) ==> Leads(s, c)
  {
    var t := DoUnpack(s, f, cacheOnRead);
    if h :| h in t.flights && h.leader == c {
      assert f in s.flights && (h in s.flights || h.leader == f.leader);
    }
  }

  lemma {:induction false} UnpackKeepsCallers(s: State, f: Flight, cacheOnRead: bool)
    requires CallerInv(s) && Enabled(s, Unpack(f, cacheOnRead))
    ensures CallerInv(DoUnpack(s, f, cacheOnRead))
  {
    var t := DoUnpack(s, f, cacheOnRead);
    forall k, c | Waits(t, k, c)
      ensures c in t.called && t.called[c] == k && c !in t.results && !Leads(t, c)
    {
      assert Waits(s, k, c);
      UnpackKeepsLeaders(s, f, cacheOnRead, c);
    }
  }

  lemma {:induction false} UnpackKeepsFlights(s: State, f: Flight, cacheOnRead: bool)
    requires |s.buffers| == |s.holders| && FlightInv(s) && Enabled(s, Unpack(f, cacheOnRead))
    ensures FlightInv(DoUnpack(s, f, cacheOnRead))
  {
  }

  lemma {:induction false} UnpackKeepsInv(s: State, f: Flight, cacheOnRead: bool)
    requires Inv(s) && Enabled(s, Unpack(f, cacheOnRead))
    ensures Inv(DoUnpack(s, f, cacheOnRead))
  {
    var t := DoUnpack(s, f, cacheOnRead);
    UnpackKeepsTable(s, f, cacheOnRead);
    UnpackKeepsCallers(s, f, cacheOnRead);
    UnpackKeepsFlights(s, f, cacheOnRead);
    hide TableInv, CallerInv, FlightInv, CountInv, HolderInv;
    forall b | 0 <= b < |t.buffers|
      ensures CountInv(t, b) && HolderInv(t, b)
    {
      if b < |s.buffers| {
        assert CountInv(s, b) && HolderInv(s, b);
        OldBuffer(s, f, cacheOnRead, b);
      } else {
        NewBuffer(s, f, cacheOnRead);
      }
    }
  }

  lemma {:induction false} OldBuffer(s: State, f: Flight, cacheOnRead: bool, b: BufferId)
    requires |s.buffers| == |s.holders| && Enabled(s, Unpack(f, cacheOnRead)) && b < |s.buffers|
    requires CountInv(s, b) && HolderInv(s, b)
    ensures CountInv(DoUnpack(s, f, cacheOnRead), b) && HolderInv(DoUnpack(s, f, cacheOnRead), b)
  {
    var t := DoUnpack(s, f, cacheOnRead);
    hide HolderInv;
    HoldersStay(s, t, b);
  }

  // The fresh buffer starts with its leader and, when it goes to the cache, the pending add.
  lemma {:induction false} NewBuffer(s: State, f: Flight, cacheOnRead: bool)
    requires |s.buffers| == |s.holders| && Enabled(s, Unpack(f, cacheOnRead))
    ensures CountInv(DoUnpack(s, f, cacheOnRead), |s.buffers|) && HolderInv(DoUnpack(s, f, cacheOnRead), |s.buffers|)
  {
    var t := DoUnpack(s, f, cacheOnRead);
    assert Unpacked(f.key, f.leader, |s.buffers|) in t.flights;
  }

  // Flight f is over: t has its table entry removed and r handed out to its callers.
  predicate Answered(s: State, t: State, f: Flight, r: Result) {
    && f in s.flights && f.key in s.table
    && t.table == s.table - {f.key} && t.flights == s.flights - {f} && t.called == s.called
    && t.results == Answer(s.results, {f.leader} + CallerSet(s.table[f.key]), r)
  }

  lemma {:induction false} AnswerKeepsTable(s: State, t: State, f: Flight, r: Result)
    requires TableInv(s) && Answered(s, t, f, r)
    ensures TableInv(t)
  {
    forall k | k in t.table
      ensures exists h :: h in t.flights && h.key == k
    {
      var h :| h in s.flights && h.key == k;
      assert h in t.flights;
    }
  }

  lemma {:induction false} AnswerKeepsResults(s: State, t: State, f: Flight, r: Result)
    requires CallerInv(s) && Answered(s, t, f, r)
    ensures forall c :: c in s.results ==> c in t.results && t.results[c] == s.results[c]
    ensures f.leader in t.results && t.results[f.leader] == r
    ensures forall c :: c in s.table[f.key] ==> c in t.results && t.results[c] == r
  {
    assert forall c :: c in s.table[f.key] ==> Waits(s, f.key, c);
  }

  lemma {:induction false} AnswerKeepsCallers(s: State, t: State, f: Flight, r: Result)
    requires TableInv(s) && CallerInv(s) && Answered(s, t, f, r)
    ensures CallerInv(t)
  {
    assert forall c :: c in s.table[f.key] ==> Waits(s, f.key, c);
    forall k, c | Waits(t, k, c)
      ensures c in t.called && t.called[c] == k && c !in t.results && !Leads(t, c)
    {
      assert Waits(s, k, c);
      assert Leads(t, c) ==> Leads(s, c);
    }
    forall h | h in t.flights
      ensures h.leader in t.called && t.called[h.leader] == h.key && h.leader !in t.results
    {
      assert h.key != f.key;
      assert !Waits(s, f.key, h.leader);
    }
  }

  lemma {:induction false} ServeKeepsInv(s: State, f: Flight)
    requires Inv(s) && Enabled(s, Serve(f))
    ensures Inv(DoServe(s, f))
  {
    var t := DoServe(s, f);
    AnswerKeepsTable(s, t, f, Fragment(f.buffer));
    AnswerKeepsCallers(s, t, f, Fragment(f.buffer));
    AnswerKeepsResults(s, t, f, Fragment(f.buffer));
    ServeCounts(s, f);
    forall b | 0 <= b < |t.buffers|
      ensures CountInv(t, b) && HolderInv(t, b)
    {
      assert CountInv(s, b) && HolderInv(s, b);
      forall c | ByCaller(c) in t.holders[b]
        ensures (exists h :: h in t.flights && h.Unpacked? && h.leader == c && h.buffer == b)
             || (c in t.results && t.results[c] == Fragment(b))
      {
        if ByCaller(c) in s.holders[b] {
          if h :| h in s.flights && h.Unpacked? && h.leader == c && h.buffer == b {
            assert h == f || h in t.flights;
          }
        }
      }
    }
  }

  // Waiters never hold the buffer before they are served, so the count grows by their number.
  lemma {:induction false} ServeCounts(s: State, f: Flight)
    requires Inv(s) && Enabled(s, Serve(f))
    ensures forall b :: 0 <= b < |s.buffers| ==> CountInv(DoServe(s, f), b)
  {
    var t := DoServe(s, f);
    var wakers := s.table[f.key];
    HolderSetSize(wakers);
    assert CountInv(s, f.buffer) && HolderInv(s, f.buffer);
    assert s.holders[f.buffer] !! HolderSet(wakers) by {
      forall c | c in wakers
        ensures ByCaller(c) !in s.holders[f.buffer]
      {
        assert Waits(s, f.key, c);
      }
    }
    assert ByCaller(f.leader) in t.holders[f.buffer];
    forall b | 0 <= b < |s.buffers|
      ensures CountInv(t, b)
    {
      assert CountInv(s, b);
    }
  }

  lemma {:induction false} FailKeepsInv(s: State, f: Flight)
    requires Inv(s) && Enabled(s, FailFlight(f))
    ensures Inv(Step(s, FailFlight(f)))
  {
    var t := Step(s, FailFlight(f));
    AnswerKeepsTable(s, t, f, Error);
    AnswerKeepsCallers(s, t, f, Error);
    AnswerKeepsResults(s, t, f, Error);
    forall b | 0 <= b < |t.buffers|
      ensures CountInv(t, b) && HolderInv(t, b)
    {
      assert CountInv(s, b) && HolderInv(s, b);
      HoldersStay(s, t, b);
    }
  }

  lemma {:induction false} DropKeepsInv(s: State, b: BufferId, h: Holder)
    requires Inv(s) && b < |s.buffers| && h in s.holders[b]
    requires forall f :: f in s.flights && f.Unpacked? && f.buffer == b ==> h != ByCaller(f.leader)
    ensures Inv(DropHolder(s, b, h))
  {
    var t := DropHolder(s, b, h);
    assert CountInv(s, b);
    assert |s.holders[b] - {h}| == |s.holders[b]| - 1;
    assert s.holders[b] - {h} == {} <==> |s.holders[b]| == 1;
    forall d | 0 <= d < |t.buffers|
      ensures CountInv(t, d) && HolderInv(t, d)
    {
      assert CountInv(s, d) && HolderInv(s, d);
    }
    assert forall k, c :: Waits(t, k, c) <==> Waits(s, k, c);
    assert forall c :: Leads(t, c) <==> Leads(s, c);
  }

  lemma {:induction false} StepKeepsInv(s: State, e: Event)
    requires Inv(s) && Enabled(s, e)
    ensures Inv(Step(s, e))
  {
    match e
    case Call(c, key) => CallKeepsInv(s, c, key);
    case Unpack(f, cacheOnRead) => UnpackKeepsInv(s, f, cacheOnRead);
    case Serve(f) => ServeKeepsInv(s, f);
    case FailFlight(f) => FailKeepsInv(s, f);
    case CacheAddDone(b) => DropKeepsInv(s, b, ByCacheAdd);
    case Release(c) => DropKeepsInv(s, s.results[c].buffer, ByCaller(c));
  }

  lemma {:induction false} RunKeepsInv(s: State, es: seq<Event>)
    requires Inv(s) && Runs(s, es)
    ensures Inv(After(s, es))
    decreases |es|
  {
    if es != [] {
      StepKeepsInv(s, es[0]);
      RunKeepsInv(Step(s, es[0]), es[1..]);
    }
  }

  // ------------------------------------------------------------------
  // What every run guarantees
  // ------------------------------------------------------------------

  /** At every moment of every run: one download in flight per dedup key; the
      counter of a buffer is the number of its holders; and its memory has been
      freed exactly once if nobody holds it, and not at all while somebody does. */
  lemma {:induction false} OneFlightPerKeyAndExactCounts(s: State, es: seq<Event>)
    requires Init(s) && Runs(s, es)
    ensures var t := After(s, es);
            && (forall f, g :: f in t.flights && g in t.flights && f.key == g.key ==> f == g)
            && |t.buffers| == |t.holders|
            && (forall b :: 0 <= b < |t.buffers| ==>
                  && t.buffers[b].count == |t.holders[b]|
                  && t.buffers[b].frees == if t.holders[b] == {} then 1 else 0)
  {
    RunKeepsInv(s, es);
    var t := After(s, es);
    forall b | 0 <= b < |t.buffers|
      ensures t.buffers[b].count == |t.holders[b]| && t.buffers[b].frees == if t.holders[b] == {} then 1 else 0
    {
      assert CountInv(t, b);
    }
  }

  // the leader's flight for `key`, at whichever stage, with c waiting for it
  predicate Together(s: State, key: Key, leader: Caller, c: Caller) {
    Waits(s, key, c) && exists f :: f in s.flights && f.key == key && f.leader == leader
  }

  predicate SameAnswer(s: State, leader: Caller, c: Caller) {
    leader in s.results && c in s.results && s.results[leader] == s.results[c]
  }

  lemma {:induction false} StepKeepsTogether(s: State, e: Event, key: Key, leader: Caller, c: Caller)
    requires Inv(s) && Enabled(s, e) && Together(s, key, leader, c)
    ensures Together(Step(s, e), key, leader, c) || SameAnswer(Step(s, e), leader, c)
  {
    var t := Step(s, e);
    var f :| f in s.flights && f.key == key && f.leader == leader;
    assert TableInv(s);
    hide Inv, CallerInv, CountInv, HolderInv, FlightInv;
    match e
    case Call(_, _) => assert f in t.flights;
    case Unpack(g, _) =>
      if g == f { assert Unpacked(key, leader, |s.buffers|) in t.flights; } else { assert f in t.flights; }
    case Serve(g) =>
      if g != f { assert f in t.flights; }
    case FailFlight(g) =>
      if g != f { assert f in t.flights; }
    case CacheAddDone(_) => assert f in t.flights;
    case Release(_) => assert f in t.flights;
  }

  lemma {:induction false} StepKeepsAnswer(s: State, e: Event, leader: Caller, c: Caller)
    requires Inv(s) && Enabled(s, e) && SameAnswer(s, leader, c)
    ensures SameAnswer(Step(s, e), leader, c)
  {
    match e
    case Serve(f) => AnswerKeepsResults(s, Step(s, e), f, Fragment(f.buffer));
    case FailFlight(f) => AnswerKeepsResults(s, Step(s, e), f, Error);
    case _ =>
  }

  // from the moment they are together on, both are answered alike or not at all
  lemma {:induction false} TogetherToTheEnd(s: State, es: seq<Event>, key: Key, leader: Caller, c: Caller)
    requires Inv(s) && Runs(s, es)
    requires Together(s, key, leader, c) || SameAnswer(s, leader, c)
    ensures var t := After(s, es);
            && (leader in t.results <==> c in t.results)
            && (c in t.results ==> t.results[c] == t.results[leader])
    decreases |es|
  {
    if es == [] {
      if Together(s, key, leader, c) {
        assert Waits(s, key, c);
        var f :| f in s.flights && f.key == key && f.leader == leader;
      }
    } else {
      StepKeepsInv(s, es[0]);
      if SameAnswer(s, leader, c) {
        StepKeepsAnswer(s, es[0], leader, c);
      } else {
        StepKeepsTogether(s, es[0], key, leader, c);
      }
      TogetherToTheEnd(Step(s, es[0]), es[1..], key, leader, c);
    }
  }

  // a call for a key that is being downloaded starts no download, and waits for that one
  lemma {:induction false} CallJoins(s: State, c: Caller, f: Flight)
    requires Inv(s) && Enabled(s, Call(c, f.key)) && f in s.flights
    ensures var t := Step(s, Call(c, f.key));
            t.flights == s.flights && Together(t, f.key, f.leader, c)
  {
    var t := Step(s, Call(c, f.key));
    assert TableInv(s);
    hide Inv, TableInv;
    assert f.key in s.table;
    assert t.table[f.key][0] == c;
  }

  /** In every run, a caller that calls while its key is being downloaded joins that download: it
      starts none of its own, and is answered when the leader is, with the same result - the same
      buffer or the same failure. */
  lemma {:induction false} JoinedCallersShareTheResult(s: State, before: seq<Event>, f: Flight, c: Caller,
                                                       after: seq<Event>)
    requires Init(s) && Runs(s, before) && f in After(s, before).flights
    requires Enabled(After(s, before), Call(c, f.key)) && Runs(Step(After(s, before), Call(c, f.key)), after)
    ensures Step(After(s, before), Call(c, f.key)).flights == After(s, before).flights
    ensures var t := After(Step(After(s, before), Call(c, f.key)), after);
            && (f.leader in t.results <==> c in t.results)
            && (c in t.results ==> t.results[c] == t.results[f.leader])
  {
    RunKeepsInv(s, before);
    var t := After(s, before);
    hide Inv, Step, Runs, After, Enabled;
    CallJoins(t, c, f);
    StepKeepsInv(t, Call(c, f.key));
    TogetherToTheEnd(Step(t, Call(c, f.key)), after, f.key, f.leader, c);
  }

  // ------------------------------------------------------------------
  // Whose fragment a caller gets, and for how long
  // ------------------------------------------------------------------

  // the keys of the downloads that were unpacked, in order: the n-th made buffer n
  function UnpackedKeys(es: seq<Event>): seq<Key> {
    if es == [] then []
    else
      var e, front := es[|es| - 1], UnpackedKeys(es[..|es| - 1]);
      if e.Unpack? then front + [e.f.key] else front
  }

  predicate FailedFor(es: seq<Event>, key: Key) {
    exists i :: 0 <= i < |es| && es[i].FailFlight? && es[i].f.key == key
  }

  // an answer belongs to the caller's own key: the buffer unpacked for it, which the caller holds until
  // it releases it, or the failure of a download of it
  ghost predicate OwnAnswer(es: seq<Event>, s: State, c: Caller)
    requires c in s.results && |s.holders| == |UnpackedKeys(es)|
  {
    && c in s.called
    && match s.results[c]
       case Fragment(b) =>
         && b < |s.holders| && UnpackedKeys(es)[b] == s.called[c]
         && (ByCaller(c) in s.holders[b] <==> Release(c) !in es)
       case Error => FailedFor(es, s.called[c])
  }

  ghost predicate HistoryInv(es: seq<Event>, s: State) {
    && |s.buffers| == |s.holders| == |UnpackedKeys(es)|
    && (forall f :: f in s.flights && f.Unpacked? ==>
          f.buffer < |s.buffers| && UnpackedKeys(es)[f.buffer] == f.key)
    && (forall c :: c in s.results ==> OwnAnswer(es, s, c))
    && (forall c :: Release(c) in es ==> c in s.results)
  }

  lemma {:induction false} OneMoreEvent(es: seq<Event>, e: Event)
    ensures UnpackedKeys(es + [e]) == if e.Unpack? then UnpackedKeys(es) + [e.f.key] else UnpackedKeys(es)
    ensures forall key :: FailedFor(es, key) ==> FailedFor(es + [e], key)
    ensures e.FailFlight? ==> FailedFor(es + [e], e.f.key)
    ensures forall c :: Release(c) in es + [e] <==> Release(c) in es || e == Release(c)
  {
    var fs := es + [e];
    assert fs[..|es|] == es && fs[|es|] == e;
    forall key | FailedFor(es, key)
      ensures FailedFor(fs, key)
    {
      var i :| 0 <= i < |es| && es[i].FailFlight? && es[i].f.key == key;
      assert fs[i] == es[i];
    }
  }

  // an answer given before stays, and so does who holds its buffer, but for a release of it
  lemma {:induction false} OldAnswerIsKept(s: State, e: Event, c: Caller)
    requires Inv(s) && Enabled(s, e) && c in s.results && c in s.called
    ensures var t := Step(s, e);
            && c in t.results && t.results[c] == s.results[c] && c in t.called && t.called[c] == s.called[c]
            && |s.holders| <= |t.holders|
            && (s.results[c].Fragment? && s.results[c].buffer < |s.holders| ==>
                  var b := s.results[c].buffer;
                  ByCaller(c) in t.holders[b] <==> ByCaller(c) in s.holders[b] && e != Release(c))
  {
    var t := Step(s, e);
    assert CallerInv(s);
    if e.Serve? || e.FailFlight? {
      AnswerKeepsResults(s, t, e.f, if e.Serve? then Fragment(e.f.buffer) else Error);
      assert forall d :: d in s.table[e.f.key] ==> Waits(s, e.f.key, d);
      assert c !in s.table[e.f.key];
    }
    hide Inv, CallerInv, Answer;
  }

  lemma {:induction false} OldAnswerStays(es: seq<Event>, s: State, e: Event, c: Caller)
    requires Inv(s) && Enabled(s, e) && HistoryInv(es, s) && c in s.results
    requires |Step(s, e).holders| == |UnpackedKeys(es + [e])|
    ensures c in Step(s, e).results && OwnAnswer(es + [e], Step(s, e), c)
  {
    OneMoreEvent(es, e);
    assert OwnAnswer(es, s, c);
    hide FailedFor, UnpackedKeys, HistoryInv, Inv, Step, Enabled;
    OldAnswerIsKept(s, e, c);
  }

  // an answer given now
  lemma {:induction false} NewAnswer(es: seq<Event>, s: State, f: Flight, e: Event, c: Caller)
    requires Inv(s) && Enabled(s, e) && HistoryInv(es, s) && (e == Serve(f) || e == FailFlight(f))
    requires c !in s.results && c in Step(s, e).results
    ensures |Step(s, e).holders| == |UnpackedKeys(es + [e])| && OwnAnswer(es + [e], Step(s, e), c)
  {
    var t := Step(s, e);
    OneMoreEvent(es, e);
    assert CallerInv(s) && FlightInv(s);
    hide FailedFor, UnpackedKeys, OwnAnswer, Inv;
    assert forall d :: d in s.table[f.key] ==> Waits(s, f.key, d);
    assert c == f.leader || Waits(s, f.key, c);
    assert t.called == s.called && c in s.called && s.called[c] == f.key;
    hide CallerInv, FlightInv;
    if e.Serve? {
      assert UnpackedKeys(es)[f.buffer] == f.key;
      assert ByCaller(c) in t.holders[f.buffer];
      assert Release(c) !in es + [e];
    }
    ShowOwnAnswer(es + [e], t, c);
  }

  lemma {:induction false} ShowOwnAnswer(es: seq<Event>, s: State, c: Caller)
    requires c in s.results && |s.holders| == |UnpackedKeys(es)| && c in s.called
    requires s.results[c].Fragment? ==>
               && s.results[c].buffer < |s.holders| && UnpackedKeys(es)[s.results[c].buffer] == s.called[c]
               && ByCaller(c) in s.holders[s.results[c].buffer] && Release(c) !in es
    requires s.results[c].Error? ==> FailedFor(es, s.called[c])
    ensures OwnAnswer(es, s, c)
  {
  }

  lemma {:induction false} StepKeepsOrigins(es: seq<Event>, s: State, e: Event)
    requires Enabled(s, e) && HistoryInv(es, s)
    ensures var t := Step(s, e); var ks := UnpackedKeys(es + [e]);
            && |t.buffers| == |t.holders| == |ks|
            && (forall f :: f in t.flights && f.Unpacked? ==> f.buffer < |t.buffers| && ks[f.buffer] == f.key)
            && (forall c :: c in t.results && c !in s.results ==> e == Serve(e.f) || e == FailFlight(e.f))
  {
    OneMoreEvent(es, e);
    hide FailedFor, UnpackedKeys, OwnAnswer, Answer;
  }

  lemma {:induction false} StepKeepsHistory(es: seq<Event>, s: State, e: Event)
    requires Inv(s) && Enabled(s, e) && HistoryInv(es, s)
    ensures HistoryInv(es + [e], Step(s, e))
  {
    var t, fs := Step(s, e), es + [e];
    StepKeepsOrigins(es, s, e);
    OneMoreEvent(es, e);
    assert forall c :: Release(c) in fs ==> c in s.results;
    forall c | c in t.results || c in s.results
      ensures c in t.results && OwnAnswer(fs, t, c)
    {
      hide *;
      if c in s.results {
        OldAnswerStays(es, s, e, c);
      } else {
        NewAnswer(es, s, e.f, e, c);
      }
    }
    hide FailedFor, UnpackedKeys, OwnAnswer, Inv, Step, Enabled;
  }

  lemma {:induction false} RunKeepsHistory(es: seq<Event>, s: State, fs: seq<Event>)
    requires Inv(s) && HistoryInv(es, s) && Runs(s, fs)
    ensures HistoryInv(es + fs, After(s, fs))
    decreases |fs|
  {
    hide Inv, HistoryInv, Enabled, Step;
    if fs == [] {
      assert es + fs == es;
    } else {
      StepKeepsInv(s, fs[0]);
      StepKeepsHistory(es, s, fs[0]);
      RunKeepsHistory(es + [fs[0]], Step(s, fs[0]), fs[1..]);
      assert es + [fs[0]] + fs[1..] == es + fs;
    }
  }

  /** In every run, a caller that was given a buffer was given the one unpacked for the very key it called
      with, and until it releases it the memory is not freed; a caller that was given an error called for a
      key whose download failed. */
  lemma {:induction false} AnswersAreOwnAndHeld(s: State, es: seq<Event>, c: Caller)
    requires Init(s) && Runs(s, es) && c in After(s, es).results
    ensures var t := After(s, es);
            && c in t.called && |t.buffers| == |UnpackedKeys(es)|
            && match t.results[c]
               case Fragment(b) =>
                 && b < |t.buffers| && UnpackedKeys(es)[b] == t.called[c]
                 && (Release(c) !in es ==> t.buffers[b].frees == 0 && t.buffers[b].count > 0)
               case Error => FailedFor(es, t.called[c])
  {
    RunKeepsInv(s, es);
    assert UnpackedKeys([]) == [];
    assert HistoryInv([], s);
    assert [] + es == es;
    hide Init, Inv, HistoryInv, UnpackedKeys, FailedFor, Runs, After;
    RunKeepsHistory([], s, es);
    OwnAndHeld(es, After(s, es), c);
  }

  lemma {:induction false} OwnAndHeld(es: seq<Event>, t: State, c: Caller)
    requires Inv(t) && HistoryInv(es, t) && c in t.results
    ensures c in t.called && |t.buffers| == |UnpackedKeys(es)|
    ensures match t.results[c]
            case Fragment(b) =>
              && b < |t.buffers| && UnpackedKeys(es)[b] == t.called[c]
              && (Release(c) !in es ==> t.buffers[b].frees == 0 && t.buffers[b].count > 0)
            case Error => FailedFor(es, t.called[c])
  {
    hide UnpackedKeys, FailedFor, TableInv, CallerInv, FlightInv, HolderInv;
    assert OwnAnswer(es, t, c);
    if t.results[c].Fragment? {
      assert CountInv(t, t.results[c].buffer);
    }
  }
}
