/** The pool of connections to one ASD: borrowing, releasing, failures and resizing. */
module ConnectionPool {
  import opened Sequences

  type Conn = nat

  const MAX_FAILURES: int := 15
  const PAUSE: int := 120
  const SECOND: int := 1_000_000_000

  // front of the list first; times in nanoseconds of the steady clock
  datatype Pool = Pool(conns: seq<Conn>, capacity: nat, failures: int, failureTime: int)

  predicate Disqualified(p: Pool, now: int) {
    p.failures >= MAX_FAILURES && (now - p.failureTime) / SECOND < PAUSE
  }

  function ReportFailure(p: Pool, now: int): Pool {
    p.(failures := p.failures + 1, failureTime := now)
  }

  // a connection that finds the pool full is destroyed
  function Release(p: Pool, c: Conn): Pool {
    p.(failures := 0, conns := if |p.conns| < p.capacity then [c] + p.conns else p.conns)
  }

  function Resize(p: Pool, capacity: nat): Pool {
    p.(capacity := capacity, conns := if |p.conns| > capacity then Reverse(p.conns[..capacity]) else p.conns)
  }

  // what the locked part of get_connection decides
  datatype Taken = Refused | Popped(c: Conn) | MustConnect

  function Take(p: Pool, now: int): (Pool, Taken) {
    if Disqualified(p, now) then (p, Refused)
    else if p.conns == [] then (p, MustConnect)
    else (p.(conns := p.conns[1..]), Popped(p.conns[0]))
  }

  // ------------------------------------------------------------------
  // The object
  // ------------------------------------------------------------------

  class ConnectionPool {
    var connections: seq<Conn>
    var capacity: nat
    var fastPathFailures: int
    var failureTime: int

    ghost function Value(): Pool
      reads this
    {
      Pool(connections, capacity, fastPathFailures, failureTime)
    }

    constructor (capacity: nat)
      ensures Value() == Pool([], capacity, 0, 0)
    {
      this.capacity := capacity;
      connections := [];
      fastPathFailures := 0;
      failureTime := 0;
    }

    method Report(now: int)
      modifies this`fastPathFailures, this`failureTime
      ensures Value() == ReportFailure(old(Value()), now)
    {
      failureTime := now;
      fastPathFailures := fastPathFailures + 1;
    }

    // `destroyed` is the connection that found no place
    method ReleaseConnection(conn: Option<Conn>, now: int) returns (destroyed: Option<Conn>)
      modifies this
      ensures conn.Some? ==> Value() == Release(old(Value()), conn.value) && fastPathFailures == 0
      ensures conn.None? ==> Value() == ReportFailure(old(Value()), now)
      ensures destroyed == if conn.Some? && |old(connections)| >= old(capacity) then conn else None
    {
      destroyed := None;
      if conn.Some? {
        fastPathFailures := 0;
        var currentSize := |connections|;
        if currentSize < capacity {
          connections := [conn.value] + connections;
        } else {
          destroyed := conn;
        }
      } else {
        Report(now);
      }
    }

    // `made` is what connecting would give, None when it throws
    method GetConnection(now: int, made: Option<Conn>) returns (conn: Option<Conn>)
      modifies this`connections
      ensures Value() == Take(old(Value()), now).0
      ensures conn == match Take(old(Value()), now).1
                      case Refused => None
                      case Popped(c) => Some(c)
                      case MustConnect => made
      ensures var paused := old(fastPathFailures) >= 15 && now - old(failureTime) < 120 * SECOND;
              if paused || old(connections) == [] then
                connections == old(connections) && conn == if paused then None else made
              else
                conn == Some(old(connections)[0]) && connections == old(connections)[1..]
    {
      if fastPathFailures >= MAX_FAILURES {
        if (now - failureTime) / SECOND < PAUSE {
          return None;
        }
      }
      conn := None;
      if connections != [] {
        conn := Some(connections[0]);
        connections := connections[1..];
      }
      if conn.None? {
        conn := made;
      }
    }

    /** Growing changes nothing else; shrinking keeps exactly the front connections, in reverse order. */
    method SetCapacity(cap: nat) returns (destroyed: seq<Conn>)
      modifies this`capacity, this`connections
      ensures Value() == Resize(old(Value()), cap)
      ensures destroyed == if |old(connections)| > cap then old(connections)[cap..] else []
    {
      capacity := cap;
      var tmp: seq<Conn> := [];
      if |connections| > capacity {
        ghost var was := connections;
        for i := 0 to capacity
          invariant capacity == cap
          invariant |connections| == |was| - i && connections == was[i..]
          invariant tmp == Reverse(was[..i])
        {
          var c := connections[0];
          connections := connections[1..];
          ReverseSnoc(was[..i], c);
          assert was[..i + 1] == was[..i] + [c];
          tmp := [c] + tmp;
        }
        tmp, connections := connections, tmp;
      }
      destroyed := tmp;
    }
  }

  // ------------------------------------------------------------------
  // Any number of borrowers
  // ------------------------------------------------------------------

  // `connecting` counts the callers that are past their check and connect outside the lock;
  // connections 0 .. made-1 have been made.
  datatype State = State(pool: Pool, now: int, made: nat, connecting: nat, borrowed: set<Conn>, destroyed: set<Conn>)

  predicate Init(s: State) {
    s.pool.conns == [] && s.pool.failures == 0 && s.made == 0 && s.connecting == 0 && s.borrowed == {}
      && s.destroyed == {}
  }

  datatype Event =
    | Tick(d: nat)
    | Get                     // the locked part of get_connection
    | Connect                 // make_one_ succeeds and the caller has its connection
    | ConnectFails
    | GiveBack(c: Conn)       // release_connection with a connection
    | GiveBackNothing         // release_connection(nullptr)
    | Lose(c: Conn)           // a read fails: the failure is reported, the connection is destroyed
    | SetCapacity(capacity: nat)

  predicate Enabled(s: State, e: Event) {
    match e
    case Connect => s.connecting > 0
    case ConnectFails => s.connecting > 0
    case GiveBack(c) => c in s.borrowed
    case Lose(c) => c in s.borrowed
    case _ => true
  }

  function Elems(s: seq<Conn>): set<Conn> {
    set c | c in s
  }

  function Step(s: State, e: Event): State
    requires Enabled(s, e)
  {
    match e
    case Tick(d) => s.(now := s.now + d)
    case Get => (
      var (p, taken) := Take(s.pool, s.now);
      match taken
      case Refused => s.(pool := p)
      case Popped(c) => s.(pool := p, borrowed := s.borrowed + {c})
      case MustConnect => s.(pool := p, connecting := s.connecting + 1))
    case Connect => s.(connecting := s.connecting - 1, made := s.made + 1, borrowed := s.borrowed + {s.made})
    case ConnectFails => s.(connecting := s.connecting - 1)
    case GiveBack(c) =>
      var p := Release(s.pool, c);
      s.(pool := p, borrowed := s.borrowed - {c}, destroyed := if c in p.conns then s.destroyed else s.destroyed + {c})
    case GiveBackNothing => s.(pool := ReportFailure(s.pool, s.now))
    case Lose(c) => s.(pool := ReportFailure(s.pool, s.now), borrowed := s.borrowed - {c},
                       destroyed := s.destroyed + {c})
    case SetCapacity(capacity) =>
      var p := Resize(s.pool, capacity);
      s.(pool := p, destroyed := s.destroyed + (Elems(s.pool.conns) - Elems(p.conns)))
  }

  predicate Runs(s: State, es: seq<Event>)
    decreases |es|
  {
    es == [] || (Enabled(s, es[0]) && Runs(Step(s, es[0]), es[1..]))
  }

  function After(s: State, es: seq<Event>): State
    requires Runs(s, es)
    decreases |es|
  {
    if es == [] then s else After(Step(s, es[0]), es[1..])
  }

  // in how many of the three places a connection is
  function Places(s: State, c: Conn): nat {
    (if c in s.pool.conns then 1 else 0) + (if c in s.borrowed then 1 else 0) + (if c in s.destroyed then 1 else 0)
  }

  ghost predicate Inv(s: State) {
    && NoDup(s.pool.conns) && |s.pool.conns| <= s.pool.capacity
    && forall c: Conn :: Places(s, c) == if c < s.made then 1 else 0
  }

  lemma {:induction false} TakeKeepsInv(s: State)
    requires Inv(s)
    ensures Inv(Step(s, Get))
  {
    if s.pool.conns != [] {
      var rest := s.pool.conns[1..];
      assert forall i :: 0 <= i < |rest| ==> rest[i] == s.pool.conns[i + 1];
      assert forall c :: c in s.pool.conns <==> c == s.pool.conns[0] || c in rest;
      assert s.pool.conns[0] !in rest;
    }
    assert forall c :: Places(Step(s, Get), c) == Places(s, c);
  }

  lemma {:induction false} GiveBackKeepsInv(s: State, c: Conn)
    requires Inv(s) && c in s.borrowed
    ensures Inv(Step(s, GiveBack(c)))
  {
    assert Places(s, c) == 1;
    assert c !in s.pool.conns;
    var t := Step(s, GiveBack(c));
    assert forall d :: Places(t, d) == Places(s, d);
  }

  lemma {:induction false} ResizeKeepsInv(s: State, capacity: nat)
    requires Inv(s)
    ensures Inv(Step(s, SetCapacity(capacity)))
    ensures capacity < |s.pool.conns| ==>
              && Elems(Step(s, SetCapacity(capacity)).pool.conns) == Elems(s.pool.conns[..capacity])
              && |Step(s, SetCapacity(capacity)).pool.conns| == capacity
  {
    var t := Step(s, SetCapacity(capacity));
    if capacity < |s.pool.conns| {
      ReverseMembers(s.pool.conns[..capacity]);
      assert forall c :: c in s.pool.conns[..capacity] ==> c in s.pool.conns;
    }
    assert forall c :: Places(t, c) == Places(s, c);
  }

  lemma {:induction false} StepKeepsInv(s: State, e: Event)
    requires Inv(s) && Enabled(s, e)
    ensures Inv(Step(s, e))
  {
    match e
    case Get => TakeKeepsInv(s);
    case GiveBack(c) => GiveBackKeepsInv(s, c);
    case SetCapacity(capacity) => ResizeKeepsInv(s, capacity);
    case Lose(c) =>
      assert Places(s, c) == 1;
      assert forall d :: Places(Step(s, e), d) == Places(s, d);
    case Connect =>
      assert Places(s, s.made) == 0;
      assert forall d :: d != s.made ==> Places(Step(s, e), d) == Places(s, d);
    case _ =>
      assert forall d :: Places(Step(s, e), d) == Places(s, d);
  }

  lemma {:induction false} RunKeepsInv(s: State, es: seq<Event>)
    requires Inv(s) && Runs(s, es)
    ensures Inv(After(s, es))
    decreases |es|
  {
    if es != [] {
      StepKeepsInv(s, es[0]);
      RunKeepsInv(Step(s, es[0]), es[1..]);
    }
  }

  /** In every run each connection that was made is in exactly one place - the pool, with a
      borrower, destroyed - and in the pool at most once; the pool never exceeds its capacity. */
  lemma {:induction false} EveryConnectionInOnePlace(s: State, es: seq<Event>, c: Conn)
    requires Init(s) && Runs(s, es)
    ensures var t := After(s, es);
            && (c < t.made <==> Places(t, c) == 1) && (c >= t.made <==> Places(t, c) == 0)
            && NoDup(t.pool.conns) && |t.pool.conns| <= t.pool.capacity
  {
    assert forall d: Conn :: Places(s, d) == 0;
    RunKeepsInv(s, es);
  }

  /** Shrinking below the current size keeps exactly the front connections and destroys the rest. */
  lemma {:induction false} ShrinkKeepsTheFront(s: State, es: seq<Event>, capacity: nat)
    requires Init(s) && Runs(s, es) && capacity < |After(s, es).pool.conns|
    ensures var t := After(s, es);
            var u := Step(t, SetCapacity(capacity));
            && Elems(u.pool.conns) == Elems(t.pool.conns[..capacity]) && |u.pool.conns| == capacity
            && u.borrowed == t.borrowed && forall c :: c in t.pool.conns[capacity..] ==> c in u.destroyed
  {
    assert forall d: Conn :: Places(s, d) == 0;
    RunKeepsInv(s, es);
    var t := After(s, es);
    ResizeKeepsInv(t, capacity);
    assert forall c :: c in t.pool.conns[capacity..] ==> c in t.pool.conns && c !in t.pool.conns[..capacity];
  }

  // ------------------------------------------------------------------
  // The pause after failures
  // ------------------------------------------------------------------

  // failures reported since the last connection was given back
  function ReportsSince(es: seq<Event>): nat {
    if es == [] || es[|es| - 1].GiveBack? then 0
    else ReportsSince(es[..|es| - 1]) + if es[|es| - 1].GiveBackNothing? || es[|es| - 1].Lose? then 1 else 0
  }

  // how long the clock has run since the last report, if there was one
  function SinceReport(es: seq<Event>): Option<nat> {
    if es == [] then None
    else
      var e := es[|es| - 1];
      if e.GiveBackNothing? || e.Lose? then Some(0)
      else
        match SinceReport(es[..|es| - 1])
        case None => None
        case Some(n) => Some(n + if e.Tick? then e.d else 0)
  }

  ghost predicate FailureInv(es: seq<Event>, s: State) {
    && s.pool.failures == ReportsSince(es)
    && (SinceReport(es).Some? ==> s.now - s.pool.failureTime == SinceReport(es).value)
    && (ReportsSince(es) > 0 ==> SinceReport(es).Some?)
  }

  lemma {:induction false} RunKeepsFailures(es: seq<Event>, s: State, fs: seq<Event>)
    requires FailureInv(es, s) && Runs(s, fs)
    ensures FailureInv(es + fs, After(s, fs))
    decreases |fs|
  {
    if fs == [] {
      assert es + fs == es;
    } else {
      var e := fs[0];
      assert (es + [e])[..|es|] == es;
      assert FailureInv(es + [e], Step(s, e));
      hide FailureInv, Step, Enabled;
      RunKeepsFailures(es + [e], Step(s, e), fs[1..]);
      assert es + [e] + fs[1..] == es + fs;
    }
  }

  /** In every run the failure count is the number of failures reported since a connection was last given
      back, so the pool is paused exactly when there were 15 of them, the last less than 120 seconds ago. */
  lemma {:induction false} PausedIffReported(s: State, es: seq<Event>)
    requires Init(s) && Runs(s, es)
    ensures After(s, es).pool.failures == ReportsSince(es)
    ensures Paused(After(s, es)) <==>
            ReportsSince(es) >= 15 && SinceReport(es).Some? && SinceReport(es).value < 120 * SECOND
  {
    RunKeepsFailures([], s, es);
    assert [] + es == es;
  }

  /** The pool is a stack: unless it is paused, a get hands out the connection given back last, and leaves
      the pool as it was before. */
  lemma {:induction false} GetUndoesGiveBack(s: State, c: Conn)
    requires Inv(s) && c in s.borrowed && |s.pool.conns| < s.pool.capacity
    ensures var t := Step(Step(s, GiveBack(c)), Get);
            t.pool.conns == s.pool.conns && t.borrowed == s.borrowed && t.destroyed == s.destroyed
            && t.pool.failures == 0
  {
    assert Places(s, c) == 1;
  }

  // 15 failures, the last less than 120 seconds ago
  predicate Paused(s: State) {
    s.pool.failures >= 15 && s.now - s.pool.failureTime < 120 * SECOND
  }

  // which is what the code finds out in whole seconds
  lemma {:induction false} PausedIsDisqualified(s: State)
    ensures Paused(s) <==> Disqualified(s.pool, s.now)
  {
  }

  predicate AlwaysPaused(s: State, es: seq<Event>)
    requires Runs(s, es)
    decreases |es|
  {
    Paused(s) && (es == [] || AlwaysPaused(Step(s, es[0]), es[1..]))
  }

  lemma {:induction false} PausedRunOnlyConnects(s: State, es: seq<Event>)
    requires Runs(s, es) && AlwaysPaused(s, es)
    ensures 0 <= After(s, es).made - s.made <= s.connecting - After(s, es).connecting
    ensures forall c :: c in After(s, es).borrowed ==> c in s.borrowed || s.made <= c < After(s, es).made
    decreases |es|
  {
    if es != [] {
      PausedIsDisqualified(s);
      PausedRunOnlyConnects(Step(s, es[0]), es[1..]);
    }
  }

  /** As long as the pool is paused nothing is handed out, except to callers that had passed the
      check before: at most as many new connections as there were callers connecting. */
  lemma {:induction false} NothingHandedOutWhilePaused(s: State, es: seq<Event>)
    requires Runs(s, es) && AlwaysPaused(s, es)
    ensures s.connecting == 0 ==> After(s, es).borrowed <= s.borrowed && After(s, es).made == s.made
    ensures After(s, es).made <= s.made + s.connecting
  {
    PausedRunOnlyConnects(s, es);
  }

  // some run gives a borrower a connection without the pause ever ending
  ghost predicate HandsOutWhilePaused(s: State) {
    exists es :: Runs(s, es) && AlwaysPaused(s, es) && !(After(s, es).borrowed <= s.borrowed)
  }

  /** Exactly: something can be handed out during a pause if and only if a caller was already
      connecting when it began. */
  lemma {:induction false} HandOutWhilePausedIff(s: State)
    requires Inv(s) && Paused(s)
    ensures HandsOutWhilePaused(s) <==> s.connecting > 0
  {
    if s.connecting > 0 {
      var es := [Connect];
      assert es[1..] == [];
      var t := Step(s, Connect);
      assert Runs(t, es[1..]) && After(s, es) == t;
      assert AlwaysPaused(t, es[1..]);
      assert Places(s, s.made) == 0;
      assert s.made in t.borrowed && s.made !in s.borrowed;
    } else {
      forall es | Runs(s, es) && AlwaysPaused(s, es)
        ensures After(s, es).borrowed <= s.borrowed
      {
        NothingHandedOutWhilePaused(s, es);
      }
    }
  }

  // n failures reported without a connection
  function Reports(n: nat): seq<Event> {
    if n == 0 then [] else [GiveBackNothing] + Reports(n - 1)
  }

  lemma {:induction false} ReportsRun(s: State, n: nat)
    ensures Runs(s, Reports(n))
    ensures After(s, Reports(n)) == if n == 0 then s
            else s.(pool := s.pool.(failures := s.pool.failures + n, failureTime := s.now))
    decreases n
  {
    if n > 0 {
      assert Reports(n)[1..] == Reports(n - 1);
      ReportsRun(Step(s, GiveBackNothing), n - 1);
    }
  }

  /** The exception is real: a caller that passed its check can be handed a connection while the pool is paused. */
  lemma {:induction false} HandOutWhilePausedIsReachable(s: State) returns (es: seq<Event>)
    requires Init(s)
    ensures Runs(s, es) && Paused(After(s, es)) && Enabled(After(s, es), Connect)
    ensures Step(After(s, es), Connect).borrowed == {0} && After(s, es).borrowed == {}
  {
    es := [Get] + Reports(15);
    var t := Step(s, Get);
    assert es[1..] == Reports(15);
    ReportsRun(t, 15);
  }
}
